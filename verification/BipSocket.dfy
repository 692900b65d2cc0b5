/**
 `MsgSocket` of Com/MsgSocket.cpp: the receive buffer with its offset, size and
 occupiedSize, and the ways to send a message.
 */
module BipSocket {
  import opened BipFrames
  import opened BipHeader
  import opened BipScan
  import opened BipLink

  const TCP_BUFFER_SIZE := 63 * 1024

  /** The header `tag_prepared_hdr` prints: blanks where the two numbers will go. */
  function PreparedHeader(length: nat): (t: Bytes)
    ensures |t| == TAG_SIZE
  {
    TAG_START + seq(19, _ => SPACE) + Hex(length, 8) + TAG_END
  }

  /** A header up to the two numbers. */
  predicate PreparedFor(t: Bytes, length: nat) {
    |t| == TAG_SIZE && t[..8] == TAG_START + [SPACE] && t[26..34] == Hex(length, 8) && t[34..] == TAG_END
  }

  lemma PreparedHeaderIs(length: nat)
    ensures PreparedFor(PreparedHeader(length), length)
  {
    var t := PreparedHeader(length);
    assert t[26..34] == Hex(length, 8);
    assert t[..8] == TAG_START + [SPACE];
  }

  /** A whole message up to the two numbers. */
  predicate PreparedMessage(t: Bytes, data: Bytes) {
    |t| == TAG_SIZE + |data| + END_SIZE && PreparedFor(t[..TAG_SIZE], |data|) && t[TAG_SIZE..] == data + TAG_END
  }

  /** The two numbers turn a prepared header into a header. */
  lemma HeaderCompleted(t: Bytes, length: nat, pid: nat, mid: nat)
    requires PreparedFor(t, length) && HeaderOk(Header(pid, mid, length))
    ensures t[..8] + Hex(pid, 8) + [SPACE] + Hex(mid, 8) + [SPACE] + t[26..] == HeaderBytes(Header(pid, mid, length))
    ensures PreparedFor(HeaderBytes(Header(pid, mid, length)), length)
  {
    var h := HeaderBytes(Header(pid, mid, length));
    assert t[26..] == Hex(length, 8) + TAG_END by {
      assert t[26..] == t[26..34] + t[34..];
    }
    assert h[..8] == TAG_START + [SPACE];
    assert h[26..34] == Hex(length, 8);
    assert h[34..] == TAG_END;
  }

  function WireAll(fs: seq<Frame>): Bytes
    requires forall i :: 0 <= i < |fs| ==> HeaderOk(HeaderOf(fs[i]))
  {
    if fs == [] then [] else WireAll(fs[..|fs| - 1]) + Wire(fs[|fs| - 1])
  }

  /** The pieces of a message sent from several buffers. */
  function Joined(parts: seq<Bytes>): (t: Bytes) {
    if parts == [] then [] else Joined(parts[..|parts| - 1]) + parts[|parts| - 1]
  }

  lemma {:induction false} JoinedLength(parts: seq<Bytes>, i: nat)
    requires i <= |parts|
    ensures |Joined(parts[..i])| <= |Joined(parts)|
    decreases |parts| - i
  {
    if i == |parts| {
      assert parts[..i] == parts;
    } else {
      JoinedLength(parts, i + 1);
      JoinedNext(parts, i);
    }
  }

  lemma NoParts()
    ensures Joined([]) == []
  {
  }

  lemma JoinedOne(t: Bytes)
    ensures Joined([t]) == t
  {
    JoinedNext([t], 0);
    assert [t][..1] == [t] && [t][..0] == [];
  }

  lemma {:induction false} JoinedAround(first: Bytes, parts: seq<Bytes>, last: Bytes)
    ensures Joined([first] + parts) == first + Joined(parts)
    ensures Joined([first] + parts + [last]) == first + Joined(parts) + last
    decreases |parts|
  {
    var n := |parts|;
    assert ([first] + parts + [last])[..n + 1] == [first] + parts;
    if n == 0 {
      assert [first] + parts == [first];
      JoinedOne(first);
    } else {
      JoinedAround(first, parts[..n - 1], last);
      assert ([first] + parts)[..n] == [first] + parts[..n - 1];
    }
  }

  lemma JoinedNext(parts: seq<Bytes>, i: nat)
    requires i < |parts|
    ensures Joined(parts[..i + 1]) == Joined(parts[..i]) + parts[i]
  {
    assert parts[..i + 1][..i] == parts[..i];
  }

  /** memcpy from a value. */
  method Store(a: array<byte>, at: nat, t: Bytes)
    requires at + |t| <= a.Length
    modifies a
    ensures a[..] == old(a[..at]) + t + old(a[at + |t|..])
  {
    forall i | 0 <= i < |t| {
      a[at + i] := t[i];
    }
    assert a[..at] == old(a[..at]) && a[at..at + |t|] == t && a[at + |t|..] == old(a[at + |t|..]);
    assert a[..] == a[..at] + a[at..at + |t|] + a[at + |t|..];
  }

  // ---- Writing a message into a buffer ----

  /** `PrepareBufferForBip` with the payload; -1 if it is longer than `maxBip`. */
  method PrepareBufferForBip(buf: array<byte>, data: Bytes, maxBip: int) returns (total: int)
    requires |data| <= maxBip ==> TAG_SIZE + |data| + END_SIZE < buf.Length
    modifies buf
    ensures total == if |data| > maxBip then -1 else TAG_SIZE + |data| + END_SIZE
    ensures total == -1 ==> buf[..] == old(buf[..])
    ensures total != -1 ==> PreparedMessage(buf[..total], data)
  {
    if |data| > maxBip {
      return -1;
    }
    PreparedHeaderIs(|data|);
    Store(buf, 0, PreparedHeader(|data|) + [NUL]);
    Store(buf, TAG_SIZE, data);
    Store(buf, TAG_SIZE + |data|, TAG_END);
    total := TAG_SIZE + |data| + END_SIZE;
    assert buf[..total][..TAG_SIZE] == PreparedHeader(|data|);
  }

  /** `PrepareBufferForBip` for the header only. */
  method PrepareHeader(buf: array<byte>, length: nat) returns (total: int)
    requires TAG_SIZE < buf.Length
    modifies buf
    ensures total == TAG_SIZE && PreparedFor(buf[..TAG_SIZE], length)
  {
    PreparedHeaderIs(length);
    Store(buf, 0, PreparedHeader(length) + [NUL]);
    total := TAG_SIZE;
    assert buf[..TAG_SIZE] == PreparedHeader(length);
  }

  /** `PrepareBufferForBipFromCuttedMsg`. */
  method PrepareBufferFromParts(buf: array<byte>, parts: seq<Bytes>, maxBip: int) returns (total: int)
    requires |Joined(parts)| <= maxBip ==> TAG_SIZE + |Joined(parts)| + END_SIZE < buf.Length
    modifies buf
    ensures total == if parts == [] || |Joined(parts)| > maxBip then -1 else TAG_SIZE + |Joined(parts)| + END_SIZE
    ensures total == -1 ==> buf[..] == old(buf[..])
    ensures total != -1 ==> PreparedMessage(buf[..total], Joined(parts))
  {
    hide PreparedMessage, PreparedHeader, PreparedFor, Joined;
    if parts == [] {
      return -1;
    }
    var length := TotalLength(parts);
    if length > maxBip {
      return -1;
    }
    PreparedHeaderIs(length);
    Store(buf, 0, PreparedHeader(length) + [NUL]);
    assert buf[..TAG_SIZE] == PreparedHeader(length);
    StoreParts(buf, TAG_SIZE, parts);
    Store(buf, TAG_SIZE + length, TAG_END);
    total := TAG_SIZE + length + END_SIZE;
    assert buf[..total] == PreparedHeader(length) + Joined(parts) + TAG_END;
    PreparedIs(PreparedHeader(length), Joined(parts));
  }

  lemma PreparedIs(header: Bytes, data: Bytes)
    requires PreparedFor(header, |data|)
    ensures PreparedMessage(header + data + TAG_END, data)
  {
    var t := header + data + TAG_END;
    assert t[..TAG_SIZE] == header && t[TAG_SIZE..] == data + TAG_END;
  }

  method StoreParts(buf: array<byte>, start: nat, parts: seq<Bytes>)
    requires start + |Joined(parts)| <= buf.Length
    modifies buf
    ensures buf[..start + |Joined(parts)|] == old(buf[..start]) + Joined(parts)
  {
    hide Joined;
    NoParts();
    assert parts[..0] == [];
    var at := start;
    for i := 0 to |parts|
      invariant at == start + |Joined(parts[..i])| <= start + |Joined(parts)|
      invariant buf[..at] == old(buf[..start]) + Joined(parts[..i])
    {
      JoinedNext(parts, i);
      JoinedLength(parts, i + 1);
      Store(buf, at, parts[i]);
      at := at + |parts[i]|;
    }
    assert parts[..|parts|] == parts;
  }

  method TotalLength(parts: seq<Bytes>) returns (n: nat)
    ensures n == |Joined(parts)|
  {
    n := 0;
    for i := 0 to |parts|
      invariant n == |Joined(parts[..i])|
    {
      JoinedNext(parts, i);
      n := n + |parts[i]|;
    }
    assert parts[..|parts|] == parts;
  }

  /** `WriteHeaderForBip`: sprintf leaves a NUL behind the two numbers, which is put back to a blank. */
  method WriteHeaderForBip(buf: array<byte>, pid: nat, mid: nat, ghost length: nat)
    requires TAG_SIZE <= buf.Length && PreparedFor(buf[..TAG_SIZE], length) && HeaderOk(Header(pid, mid, length))
    modifies buf
    ensures buf[..TAG_SIZE] == HeaderBytes(Header(pid, mid, length)) && buf[TAG_SIZE..] == old(buf[TAG_SIZE..])
    ensures PreparedFor(buf[..TAG_SIZE], length)
  {
    HeaderCompleted(buf[..TAG_SIZE], length, pid, mid);
    ghost var was := buf[..];
    Store(buf, 8, Hex(pid, 8) + [SPACE] + Hex(mid, 8) + [NUL]);
    buf[25] := SPACE;
    assert buf[..8] == was[..8] && buf[26..] == was[26..]
        && buf[8..26] == Hex(pid, 8) + [SPACE] + Hex(mid, 8) + [SPACE];
    assert buf[26..TAG_SIZE] == was[..TAG_SIZE][26..];
    assert was[..TAG_SIZE][..8] == was[..8];
    assert buf[..TAG_SIZE] == buf[..8] + buf[8..26] + buf[26..TAG_SIZE];
    assert buf[TAG_SIZE..] == was[TAG_SIZE..];
  }

  /** A buffer prepared for a payload becomes the message with these two numbers. */
  method Complete(buf: array<byte>, total: int, pid: nat, mid: nat, ghost data: Bytes)
    requires total == TAG_SIZE + |data| + END_SIZE <= buf.Length && HeaderOk(Header(pid, mid, |data|))
    requires PreparedMessage(buf[..total], data)
    modifies buf
    ensures buf[..total] == Wire(Frame(pid, mid, data)) && PreparedMessage(buf[..total], data)
  {
    hide PreparedFor, HeaderBytes;
    ghost var was := buf[TAG_SIZE..];
    assert buf[..total][..TAG_SIZE] == buf[..TAG_SIZE] && buf[..total][TAG_SIZE..] == was[..total - TAG_SIZE];
    WriteHeaderForBip(buf, pid, mid, |data|);
    assert buf[..total][..TAG_SIZE] == buf[..TAG_SIZE] && buf[..total][TAG_SIZE..] == was[..total - TAG_SIZE];
    assert buf[..total] == buf[..total][..TAG_SIZE] + buf[..total][TAG_SIZE..];
    assert HeaderBytes(Header(pid, mid, |data|)) + data + TAG_END
        == HeaderBytes(Header(pid, mid, |data|)) + (data + TAG_END);
  }

  // ---- The socket ----

  /** The bytes are these messages. */
  predicate Logged(wire: Bytes, fs: seq<Frame>) {
    (forall i :: 0 <= i < |fs| ==> HeaderOk(HeaderOf(fs[i]))) && wire == WireAll(fs)
  }

  lemma LoggedMore(wire: Bytes, fs: seq<Frame>, f: Frame)
    requires Logged(wire, fs) && HeaderOk(HeaderOf(f))
    ensures Logged(wire + Wire(f), fs + [f])
  {
    assert (fs + [f])[..|fs|] == fs;
  }

  /** The exceptions of the sending methods. */
  datatype Sent = Sent(result: int) | Exception

  lemma SliceOfSlice(a: Bytes, from: nat, to: nat, i: nat, j: nat)
    requires i <= j && from + j <= to <= |a|
    ensures a[from..to][i..j] == a[from + i..from + j]
    ensures a[from..to][i..] == a[from + i..to]
  {
    var b := a[from..to];
    assert forall k :: i <= k < j ==> b[i..j][k - i] == b[k] == a[from + k];
  }

  /** A round at a complete message, in terms of the whole buffer. */
  lemma MessageRound(a: Bytes, offset: nat, occupied: nat, h: Header)
    requires offset + TAG_SIZE + h.length + END_SIZE <= occupied <= |a| && 0 <= h.length
    requires !Overlong(Good(h), occupied - offset) && GoodBeginning(a[offset..occupied]) == Good(h)
    ensures var start := offset + TAG_SIZE; var end := start + h.length;
            Iterate(a[offset..occupied]) ==
              if h.mid != 0 && a[end..end + END_SIZE] != TAG_END then Next(a[start..occupied], [])
              else Next(a[end + END_SIZE..occupied], [EventOf(h, a[start..end])])
  {
    hide GoodBeginning, MoveToMessage;
    var n := TAG_SIZE + h.length;
    SliceOfSlice(a, offset, occupied, n, n + END_SIZE);
    SliceOfSlice(a, offset, occupied, TAG_SIZE, n);
    SliceOfSlice(a, offset, occupied, n + END_SIZE, n + END_SIZE);
  }

  /**
   What a round of the loop leaves behind: the bytes from `offset` on, what was
   reported, and whether the connection lives.
   */
  predicate Follows(r: Round, e0: Endpoint, e: Endpoint, kept: Bytes, stop: bool, out: seq<Event>, connected: bool) {
    match r
    case TooLong => false
    case Stop(rest) => stop && out == [] && connected && kept == rest && e == e0
    case Next(rest, evs) =>
      && !stop && out == evs && kept == rest
      && match TakeAll(e0, evs)
         case Thrown => !connected
         case Done(e1, _) => connected && e == e1
  }

  lemma WaitRound(b: Bytes, h: Header, e: Endpoint)
    requires GoodBeginning(b) == Good(h) && 0 <= h.length && !Overlong(Good(h), |b|) && |b| < Size(h)
    ensures Follows(Iterate(b), e, e, b, true, [], true)
  {
  }

  /** Where the buffer has to grow, its new size stays within a signed int. */
  lemma GrowthFits(h: Header, size: nat)
    requires HeaderOk(h) && !Overlong(Good(h), size) && size < Size(h)
    ensures Signed(Size(h)) <= 0x8000_0000 - 1024
    ensures if Endless(Good(h)) then Signed(Size(h)) < 0 else Signed(Size(h)) == Size(h)
  {
  }

  lemma FollowsMessage(r: Round, e0: Endpoint, e: Endpoint, kept: Bytes, out: seq<Event>, connected: bool)
    requires r == Next(kept, out)
    requires out == [] ==> e == e0 && connected
    requires out != [] ==>
               && out == [out[0]]
               && match Take(e0, out[0])
                  case Thrown => !connected
                  case Done(e1, _) => connected && e == e1
    ensures Follows(r, e0, e, kept, false, out, connected)
  {
    if out != [] {
      TakeNext(e0, [], out[0]);
    }
  }

  /** Where a pass over the bytes `all` stands: what was reported and done, and what is still to be looked at. */
  predicate Pass(all: Bytes, e0: Endpoint, e: Endpoint, kept: Bytes, stop: bool, out: seq<Event>, connected: bool) {
    if !connected then TakeAll(e0, Scan(all).events).Thrown?
    else
      && TakeAll(e0, out) == Done(e, true)
      && if stop then Scan(all) == Waiting(out, kept) else Scan(kept).Waiting? && Prepend(out, Scan(kept)) == Scan(all)
  }

  lemma PassStart(all: Bytes, e: Endpoint)
    requires Scan(all).Waiting?
    ensures Pass(all, e, e, all, false, [], true)
  {
    PrependNothing(Scan(all));
  }

  lemma PassEnd(all: Bytes, e0: Endpoint, e: Endpoint, kept: Bytes, stop: bool, out: seq<Event>, connected: bool)
    requires Pass(all, e0, e, kept, stop, out, connected) && (stop || !connected)
    ensures var r := Scan(all);
            match TakeAll(e0, r.events)
            case Thrown => !connected
            case Done(e1, _) => connected && e == e1 && r.Waiting? && kept == r.rest
  {
  }

  lemma PassLength(all: Bytes, e0: Endpoint, e: Endpoint, kept: Bytes, out: seq<Event>)
    requires Pass(all, e0, e, kept, false, out, true) && |kept| >= TAG_SIZE && GoodBeginning(kept).Good?
    ensures !Overlong(GoodBeginning(kept), |kept|)
  {
  }

  lemma PassRound(all: Bytes, e0: Endpoint, e: Endpoint, kept: Bytes, out: seq<Event>,
                  e1: Endpoint, kept1: Bytes, stop: bool, out1: seq<Event>, connected: bool)
    requires Pass(all, e0, e, kept, false, out, true) && Follows(Iterate(kept), e, e1, kept1, stop, out1, connected)
    requires |out1| <= 1
    ensures Pass(all, e0, e1, kept1, stop, out + out1, connected)
    ensures !stop ==> |kept1| < |kept|
  {
    hide Iterate;
    if out1 == [] {
      assert out + out1 == out;
    } else {
      assert out1 == [out1[0]];
      TakeNext(e0, out, out1[0]);
      TakeNext(e, [], out1[0]);
    }
    if !stop {
      PrependTwice(out, out1, Scan(kept1));
      if !connected {
        ThrownStays(e0, out + out1, Scan(kept1).events);
      }
    }
  }

  /** An unsigned number as a signed int. */
  function Signed(n: int): int { if n < 0x8000_0000 then n else n - WORD }

  class MsgSocket {
    /** `service_id`, `message_id`, `sendSyncLinkMsg`, `receivedSyncLinkMsg`, `peer_pid`, `SyncLinkData`. */
    const pid: nat
    var nextId: nat
    var linkSent: bool
    var linkReceived: bool
    var peer: int
    const linkData: Bytes
    /** `maxMessageSizeForTCP` and `maxBIPMessageSize`. */
    var maxTcp: int
    var maxBip: int
    /** What has been given to the TCP socket, and the same as messages. */
    var wire: Bytes
    ghost var sent: seq<Frame>
    /** What the callbacks have been told. */
    var heard: seq<Event>
    const sendBuffer: array<byte>
    /** The receive buffer has one byte more than `bufferSize`, for a NUL. */
    var bufferSize: int
    var buffer: array<byte>
    var occupiedSize: int
    var connected: bool
    /** Whether a SyncLink callback and a listener are registered. */
    const syncCallback: bool
    const listener: bool

    ghost predicate Sending()
      reads this
    {
      && pid < WORD && nextId < WORD && |linkData| < 0x8000_0000
      && 1 <= maxTcp < TCP_BUFFER_SIZE == sendBuffer.Length && maxBip == maxTcp - TAG_SIZE - END_SIZE
      && Logged(wire, sent)
    }

    ghost predicate Receiving()
      reads this
    {
      && buffer.Length == bufferSize + 1 && TCP_BUFFER_SIZE <= bufferSize < 0x8000_0000
      && 0 <= occupiedSize <= bufferSize
      && buffer != sendBuffer
    }

    /** There is room for more, except while a message is awaited whose size is beyond a signed int. */
    ghost predicate HasRoom(size: int, kept: Bytes)
      reads this
    {
      size < bufferSize || (size == bufferSize && Endless(GoodBeginning(kept)))
    }

    ghost function Abs(): Endpoint
      reads this
    {
      Endpoint(pid, nextId, linkSent, linkReceived, peer, linkData, maxBip, sent, heard)
    }

    /** The bytes kept in the receive buffer. */
    ghost function Kept(): Bytes
      reads this, buffer
      requires Receiving()
    {
      buffer[..occupiedSize]
    }

    constructor (pid: nat, linkData: Bytes, syncCallback: bool, listener: bool)
      requires pid < WORD && |linkData| < 0x8000_0000
      ensures Sending() && Receiving() && connected && Kept() == [] && Fresh(Abs()) && maxTcp == TCP_BUFFER_SIZE - 1
      ensures fresh(buffer) && fresh(sendBuffer) && this.pid == pid && this.linkData == linkData
    {
      this.pid, nextId, linkSent, linkReceived, peer, this.linkData := pid, 0, false, false, 0, linkData;
      maxTcp, maxBip, wire, sent, heard := 1, 0, [], [], [];
      sendBuffer := new byte[TCP_BUFFER_SIZE](_ => 0);
      bufferSize, occupiedSize, connected := TCP_BUFFER_SIZE, 0, true;
      buffer := new byte[TCP_BUFFER_SIZE + 1](_ => 0);
      this.syncCallback, this.listener := syncCallback, listener;
      new;
      SetMaxMessageSizeForTCP(TCP_BUFFER_SIZE - 1);
    }

    /** Whatever is asked for, a prepared message fits into the send buffer. */
    method SetMaxMessageSizeForTCP(max: int)
      modifies this`maxTcp, this`maxBip
      ensures max <= 0 ==> maxTcp == old(maxTcp) && maxBip == old(maxBip)
      ensures max > 0 ==> maxTcp == (if max < TCP_BUFFER_SIZE then max else TCP_BUFFER_SIZE - 1)
      ensures max > 0 ==> maxBip == maxTcp - TAG_SIZE - END_SIZE
      ensures old(Sending()) ==> Sending()
    {
      if max <= 0 {
        return;
      }
      if max > TCP_BUFFER_SIZE - 1 {
        maxTcp := TCP_BUFFER_SIZE - 1;
      } else {
        maxTcp := max;
      }
      maxBip := maxTcp - TAG_SIZE - END_SIZE;
    }

    /** The TCP socket takes all the bytes. */
    method Put(t: Bytes)
      modifies this`wire
      ensures wire == old(wire) + t
    {
      wire := wire + t;
    }

    /** The number of this message is used up, and its bytes leave. */
    method Emit(pieces: seq<Bytes>, ghost data: Bytes)
      requires Sending() && |data| < 0x8000_0000 && Joined(pieces) == Wire(Frame(pid, nextId, data))
      modifies this`nextId, this`wire, this`sent
      ensures Sending() && Abs() == SendData(old(Abs()), data)
      ensures wire == old(wire) + Wire(Frame(pid, old(nextId), data))
    {
      hide Logged, Wire, Joined;
      LoggedMore(wire, sent, Frame(pid, nextId, data));
      sent := sent + [Frame(pid, nextId, data)];
      nextId := (nextId + 1) % WORD;
      PutAll(pieces);
    }

    method PutAll(pieces: seq<Bytes>)
      modifies this`wire
      ensures wire == old(wire) + Joined(pieces)
    {
      for i := 0 to |pieces|
        invariant wire == old(wire) + Joined(pieces[..i])
      {
        JoinedNext(pieces, i);
        Put(pieces[i]);
      }
      assert pieces[..|pieces|] == pieces;
    }

    /** A message already in the send buffer, but for its two numbers. */
    method SendWhole(total: int, ghost data: Bytes)
      requires Sending() && |data| < 0x8000_0000 && total == TAG_SIZE + |data| + END_SIZE <= sendBuffer.Length
      requires PreparedMessage(sendBuffer[..total], data)
      modifies this`nextId, this`wire, this`sent, sendBuffer
      ensures Sending() && Abs() == SendData(old(Abs()), data)
      ensures wire == old(wire) + Wire(Frame(pid, old(nextId), data))
    {
      hide PreparedMessage, Logged, Wire;
      Complete(sendBuffer, total, pid, nextId, data);
      JoinedOne(sendBuffer[..total]);
      Emit([sendBuffer[..total]], data);
    }

    /** A message too long for the send buffer: the header, the payload and the end one after the other. */
    method SendInPieces(parts: seq<Bytes>, length: nat) returns (r: int)
      requires Sending() && length == |Joined(parts)| < 0x8000_0000
      modifies this`nextId, this`wire, this`sent, sendBuffer
      ensures Sending() && Abs() == SendData(old(Abs()), Joined(parts))
      ensures wire == old(wire) + Wire(Frame(pid, old(nextId), Joined(parts)))
      ensures r == TAG_SIZE + length + END_SIZE
    {
      var total := PrepareHeader(sendBuffer, length);
      WriteHeaderForBip(sendBuffer, pid, nextId, length);
      JoinedAround(sendBuffer[..total], parts, TAG_END);
      Emit([sendBuffer[..total]] + parts + [TAG_END], Joined(parts));
      r := total + length + END_SIZE;
    }

    /** `Send`. The number of bytes sent, without header and end if they left in one piece. */
    method Send(data: Bytes) returns (r: int)
      requires Sending() && |data| < 0x8000_0000
      modifies this`nextId, this`wire, this`sent, sendBuffer
      ensures Sending() && Abs() == SendData(old(Abs()), data)
      ensures wire == old(wire) + Wire(Frame(pid, old(nextId), data))
      ensures r == if |data| > maxBip then |Wire(Frame(pid, old(nextId), data))| else |data|
    {
      if |data| > maxBip {
        JoinedOne(data);
        r := SendInPieces([data], |data|);
      } else {
        var total := PrepareBufferForBip(sendBuffer, data, maxBip);
        SendWhole(total, data);
        r := total - END_SIZE - TAG_SIZE;
      }
    }

    /** `SendCuttedMsg`: the parts make up one message. Only an empty list of parts that would fit is refused. */
    method SendCuttedMsg(parts: seq<Bytes>) returns (r: int)
      requires Sending() && |Joined(parts)| < 0x8000_0000
      modifies this`nextId, this`wire, this`sent, sendBuffer
      ensures Sending()
      ensures var refused := parts == [] && maxBip >= 0;
              if refused then r == -1 && Abs() == old(Abs()) && wire == old(wire)
              else
                && Abs() == SendData(old(Abs()), Joined(parts)) && r == TAG_SIZE + |Joined(parts)| + END_SIZE
                && wire == old(wire) + Wire(Frame(pid, old(nextId), Joined(parts)))
    {
      var length := TotalLength(parts);
      if length > maxBip {
        r := SendInPieces(parts, length);
      } else {
        r := PrepareBufferFromParts(sendBuffer, parts, maxBip);
        if r == -1 {
          return;
        }
        SendWhole(r, Joined(parts));
      }
    }

    /**
     `SendPreparedBuffer`: the caller's buffer holds a message but for its
     numbers, and can be sent again. An exception if it is too long.
     */
    method SendPreparedBuffer(length: int, prepared: array<byte>, ghost data: Bytes) returns (r: Sent)
      requires Sending() && |data| < 0x8000_0000 && length == TAG_SIZE + |data| + END_SIZE <= prepared.Length
      requires PreparedMessage(prepared[..length], data)
      modifies this`nextId, this`wire, this`sent, prepared
      ensures Sending() && PreparedMessage(prepared[..length], data)
      ensures if length > maxTcp then r.Exception? && Abs() == old(Abs()) && wire == old(wire)
              else
                && r == Sent.Sent(length) && Abs() == SendData(old(Abs()), data)
                && wire == old(wire) + Wire(Frame(pid, old(nextId), data))
    {
      if length > maxTcp {
        return Exception;
      }
      hide PreparedMessage, Logged, Wire;
      Complete(prepared, length, pid, nextId, data);
      JoinedOne(prepared[..length]);
      Emit([prepared[..length]], data);
      r := Sent.Sent(length);
    }

    /** `SendSyncLinkMsg`. */
    method SendSyncLinkMsg() returns (r: Sent)
      requires Sending()
      modifies this`nextId, this`wire, this`sent, this`linkSent, sendBuffer
      ensures Sending()
      ensures match SendLink(old(Abs()))
              case Thrown => r.Exception? && Abs() == old(Abs()) && wire == old(wire)
              case Done(e, ok) =>
                && Abs() == e && r == Sent.Sent(if ok then 1 else 0)
                && wire == old(wire) + if ok then Wire(Frame(pid, 0, linkData)) else []
      ensures !old(linkSent) && old(nextId) == 0 && |linkData| <= maxBip ==>
                && r == Sent.Sent(1) && linkSent && nextId == 1
                && sent == old(sent) + [Frame(pid, 0, linkData)] && wire == old(wire) + Wire(Frame(pid, 0, linkData))
      ensures old(linkSent) || (old(nextId) == 0 && |linkData| > maxBip) ==>
                r == Sent.Sent(0) && Abs() == old(Abs()) && wire == old(wire)
      ensures !old(linkSent) && old(nextId) != 0 ==> r.Exception? && Abs() == old(Abs()) && wire == old(wire)
    {
      hide PreparedMessage, Logged, Wire;
      if linkSent {
        return Sent.Sent(0);
      }
      if nextId != 0 {
        return Exception;
      }
      var total := PrepareBufferForBip(sendBuffer, linkData, maxBip);
      if total == -1 {
        return Sent.Sent(0);
      }
      SendWhole(total, linkData);
      linkSent := true;
      r := Sent.Sent(1);
    }

    // ---- Receiving ----

    /** The loop of `MoveToMessage`. */
    method Search(offset: int, size: int) returns (dec: int)
      requires 0 <= offset && TAG_SIZE <= size && offset + size <= buffer.Length
      ensures dec == MoveToMessage(buffer[offset..offset + size], 0)
    {
      ghost var b := buffer[offset..offset + size];
      dec := 0;
      while dec < size - TAG_SIZE && buffer[offset + dec..offset + dec + 7] != TAG_START
        invariant 0 <= dec <= size - TAG_SIZE && MoveToMessage(b, dec) == MoveToMessage(b, 0)
      {
        assert b[dec..][..7] == buffer[offset + dec..offset + dec + 7];
        dec := dec + 1;
      }
      assert dec < size - TAG_SIZE ==> b[dec..][..7] == buffer[offset + dec..offset + dec + 7];
    }

    /** A larger buffer, rounded up to whole kilobytes, for a message of `total` bytes of which `size` are there. */
    method Grow(total: int, offset: int, size: int)
      requires buffer.Length == bufferSize + 1 && 0 <= offset && 0 <= size
            && offset + size == occupiedSize <= bufferSize
      requires size < total && bufferSize <= total <= 0x8000_0000 - 1024
      modifies this`bufferSize, this`buffer, this`occupiedSize
      ensures buffer.Length == bufferSize + 1 && fresh(buffer)
      ensures old(bufferSize) <= bufferSize < 0x8000_0000 && bufferSize % 1024 == 0
      ensures total <= bufferSize < total + 1024
      ensures occupiedSize == size < bufferSize
      ensures buffer[..occupiedSize] == old(buffer[offset..occupiedSize])
    {
      bufferSize := (total + 1023) / 1024 * 1024;
      var larger := new byte[bufferSize + 1](_ => 0);
      forall i | 0 <= i < size {
        larger[i] := buffer[offset + i];
      }
      buffer, occupiedSize := larger, size;
    }

    /** What is done with a complete message. */
    method Deliver(h: Header, data: Bytes) returns (ok: bool)
      requires Sending() && buffer != sendBuffer
      modifies this`nextId, this`wire, this`sent, this`linkSent, this`linkReceived, this`peer, this`heard, sendBuffer
      ensures Sending()
      ensures match Take(old(Abs()), EventOf(h, data))
              case Thrown => !ok
              case Done(e, _) => ok && Abs() == e
    {
      hide Logged, Wire;
      if h.mid == 0 {
        peer := h.pid;
        linkReceived := true;
        var r := SendSyncLinkMsg();
        if r.Exception? {
          return false;
        }
      }
      heard := heard + [EventOf(h, data)];
      ok := true;
    }

    /**
     A header is there, but its message is not: the buffer is made large enough
     for it, unless the size of the message is negative as a signed int.
     */
    method Await(h: Header, offset: int, size: int) returns (next: int)
      requires Sending() && Receiving() && 0 <= offset && 0 <= size && offset + size == occupiedSize
      requires GoodBeginning(buffer[offset..occupiedSize]) == Good(h) && HeaderOk(h)
      requires !Overlong(Good(h), size) && size < Size(h)
      modifies this`bufferSize, this`buffer, this`occupiedSize
      ensures Sending() && Receiving() && (buffer == old(buffer) || fresh(buffer))
      ensures 0 <= next && next + size == occupiedSize && HasRoom(size, buffer[next..occupiedSize])
      ensures Endless(Good(h)) ==> buffer == old(buffer) && bufferSize == old(bufferSize)
      ensures Follows(old(Iterate(buffer[offset..occupiedSize])), old(Abs()), Abs(),
                      buffer[next..occupiedSize], true, [], true)
    {
      hide GoodBeginning, Iterate, Logged, Follows, Size, Overlong;
      WaitRound(buffer[offset..occupiedSize], h, Abs());
      GrowthFits(h, size);
      var total := Signed(Size(h));
      next := offset;
      if total >= bufferSize {
        Grow(total, offset, size);
        next := 0;
      }
    }

    /**
     A whole message is there. If its end is not where it should be, only the
     header is skipped. The callbacks get the payload with a NUL in place of the
     end, once it has been looked at.
     */
    method TakeMessage(h: Header, offset: int) returns (next: int, left: int, ghost out: seq<Event>)
      requires Sending() && Receiving() && connected && 0 <= offset && 0 <= h.length
      requires offset + TAG_SIZE + h.length + END_SIZE <= occupiedSize && !Overlong(Good(h), occupiedSize - offset)
      requires GoodBeginning(buffer[offset..occupiedSize]) == Good(h)
      modifies this, buffer, sendBuffer
      ensures Sending() && Receiving() && buffer == old(buffer) && occupiedSize == old(occupiedSize)
      ensures offset < next && 0 <= left && next + left == occupiedSize && |out| <= 1
      ensures Follows(old(Iterate(buffer[offset..occupiedSize])), old(Abs()), Abs(),
                      buffer[next..occupiedSize], false, out, connected)
    {
      hide GoodBeginning, Iterate, Logged, Take, TakeAll, Follows, Overlong, EventOf;
      ghost var a, e := buffer[..], Abs();
      var start := offset + TAG_SIZE;
      var end := start + h.length;
      assert a[offset..occupiedSize] == buffer[offset..occupiedSize];
      MessageRound(a, offset, occupiedSize, h);
      if h.mid != 0 && buffer[end..end + END_SIZE] != TAG_END {
        next, out := start, [];
        left := occupiedSize - next;
        FollowsMessage(Iterate(a[offset..occupiedSize]), e, e, a[next..occupiedSize], out, true);
      } else {
        var data := buffer[start..end];
        out := [EventOf(h, data)];
        next := end + END_SIZE;
        left := occupiedSize - next;
        if if h.mid == 0 then syncCallback else listener {
          buffer[end] := NUL;
        }
        assert buffer[next..occupiedSize] == a[next..occupiedSize];
        var ok := Deliver(h, data);
        FollowsMessage(Iterate(a[offset..occupiedSize]), e, Abs(), a[next..occupiedSize], out, ok);
        connected := ok;
      }
    }

    /** No header is there: the loop moves to the next tag, or waits with the last 36 bytes. */
    method Skip(offset: int, size: int) returns (next: int, left: int, stop: bool)
      requires Receiving() && 0 <= offset && 0 <= size && offset + size == occupiedSize
      requires GoodBeginning(buffer[offset..occupiedSize]).Bad?
      ensures 0 <= next && 0 <= left && next + left == occupiedSize
      ensures stop ==> HasRoom(left, buffer[next..occupiedSize])
      ensures Follows(Iterate(buffer[offset..occupiedSize]), Abs(), Abs(), buffer[next..occupiedSize], stop, [], true)
    {
      hide GoodBeginning, Logged, MoveToMessage;
      ghost var b := buffer[offset..occupiedSize];
      if size < TAG_SIZE {
        return offset, size, true;
      }
      var dec := Search(offset, size);
      next, left, stop := offset + dec, size - dec, dec == size - TAG_SIZE;
      assert b[dec..] == buffer[next..occupiedSize];
    }

    /** One round of the loop of `Receive`. */
    method Round(offset: int, size: int, ghost all: Bytes, ghost e0: Endpoint, ghost out: seq<Event>)
        returns (next: int, left: int, stop: bool, ghost more: seq<Event>)
      requires Sending() && Receiving() && connected && 0 <= offset && 0 <= size && offset + size == occupiedSize
      requires Pass(all, e0, Abs(), buffer[offset..occupiedSize], false, out, true)
      modifies this, buffer, sendBuffer
      ensures Sending() && Receiving() && (buffer == old(buffer) || fresh(buffer))
      ensures 0 <= next && 0 <= left && next + left == occupiedSize
      ensures stop ==> HasRoom(left, buffer[next..occupiedSize])
      ensures Pass(all, e0, Abs(), buffer[next..occupiedSize], stop, out + more, connected)
      ensures !stop ==> left < size
    {
      hide Pass, Iterate, Follows, Sending, GoodBeginning;
      ghost var kept, e := buffer[offset..occupiedSize], Abs();
      more := [];
      match GoodBeginning(buffer[offset..occupiedSize]) {
        case Bad =>
          next, left, stop := Skip(offset, size);
        case Good(h) =>
          PassLength(all, e0, e, kept, out);
          if size < Size(h) {
            next := Await(h, offset, size);
            left, stop := size, true;
          } else {
            next, left, more := TakeMessage(h, offset);
            stop := false;
          }
      }
      PassRound(all, e0, e, kept, out, Abs(), buffer[next..occupiedSize], stop, more, connected);
    }

    /** The loop of `Receive`. It ends because the size gets smaller in each round that does not stop. */
    method Rounds(ghost all: Bytes) returns (offset: int, size: int)
      requires Sending() && Receiving() && connected && Passable(all) && buffer[0..occupiedSize] == all
      modifies this, buffer, sendBuffer
      ensures Sending() && Receiving() && (buffer == old(buffer) || fresh(buffer))
      ensures 0 <= offset && 0 <= size && offset + size == occupiedSize
      ensures match TakeAll(old(Abs()), Scan(all).events)
              case Thrown => !connected
              case Done(e, _) =>
                connected && Abs() == e && Scan(all).Waiting? && buffer[offset..occupiedSize] == Scan(all).rest
      ensures connected ==> HasRoom(size, buffer[offset..occupiedSize])
    {
      ghost var e0 := Abs();
      EndsExactly(all);
      PassStart(all, e0);
      hide Passable, Pass, Logged, TakeAll, Scan, GoodBeginning, Sending;
      offset, size := 0, occupiedSize;
      var stop := false;
      ghost var out: seq<Event> := [];
      while connected && !stop
        invariant Sending() && Receiving() && (buffer == old(buffer) || fresh(buffer))
        invariant 0 <= offset && 0 <= size && offset + size == occupiedSize
        invariant Pass(all, e0, Abs(), buffer[offset..occupiedSize], stop, out, connected)
        invariant stop ==> HasRoom(size, buffer[offset..occupiedSize])
        decreases !stop, size
      {
        ghost var more;
        offset, size, stop, more := Round(offset, size, all, e0, out);
        out := out + more;
      }
      PassEnd(all, e0, Abs(), buffer[offset..occupiedSize], stop, out, connected);
    }

    /**
     `Receive`, with what `Recv` delivers. No bytes mean that the peer is gone.
     Each tag that the loop comes to with more than 36 bytes has to begin a
     header, and no length may be one that cannot be handled. A full buffer leaves
     `Recv` nothing to deliver: then, too, the peer counts as gone.
     */
    method Receive(chunk: Bytes)
      requires Sending() && Receiving() && connected && |chunk| <= bufferSize - occupiedSize
      requires chunk != [] ==> Passable(Kept() + chunk)
      modifies this, buffer, sendBuffer
      ensures Sending() && (buffer == old(buffer) || fresh(buffer))
      ensures if chunk == [] then !connected && Abs() == old(Abs())
              else
                var r := Scan(old(Kept()) + chunk);
                match TakeAll(old(Abs()), r.events)
                case Thrown => !connected
                case Done(e, _) =>
                  && connected && Abs() == e && Receiving() && r.Waiting? && Kept() == r.rest
                  && HasRoom(occupiedSize, Kept())
    {
      if chunk == [] {
        connected := false;
        return;
      }
      ghost var all := Kept() + chunk;
      Fill(chunk);
      hide Passable, TakeAll, Scan, HasRoom, Abs, Sending;
      var offset, size := Rounds(all);
      if connected {
        Compact(offset, size);
      }
    }

    /** The bytes of `Recv` and a NUL are put behind those that are there. */
    method Fill(chunk: Bytes)
      requires Receiving() && |chunk| <= bufferSize - occupiedSize
      modifies this`occupiedSize, buffer
      ensures Receiving() && occupiedSize == old(occupiedSize) + |chunk|
      ensures buffer[0..occupiedSize] == old(Kept()) + chunk
      ensures Abs() == old(Abs()) && Sending() == old(Sending())
    {
      Store(buffer, occupiedSize, chunk);
      occupiedSize := occupiedSize + |chunk|;
      buffer[occupiedSize] := NUL;
    }

    /** What is left moves to the front. */
    method Compact(offset: int, size: int)
      requires Sending() && Receiving() && 0 <= offset && 0 <= size && offset + size == occupiedSize
      requires HasRoom(size, buffer[offset..occupiedSize])
      modifies this`occupiedSize, buffer
      ensures Sending() && Receiving() && Kept() == old(buffer[offset..occupiedSize]) && HasRoom(occupiedSize, Kept())
      ensures Abs() == old(Abs())
    {
      hide Logged, GoodBeginning, Endless;
      ghost var kept := buffer[offset..occupiedSize];
      occupiedSize := size;
      if occupiedSize != 0 && offset != 0 {
        forall i | 0 <= i < occupiedSize {
          buffer[i] := buffer[offset + i];
        }
      }
      assert buffer[..occupiedSize] == kept;
    }
  }
}

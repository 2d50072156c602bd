/**
  Cutting a byte stream into length-prefixed frames: the loop of TcpIngestServer::handleClient
  and that of EpollIngestServer::processBuffer, with their guards.
 */
module Framing {
  import opened Bytes
  import opened Frames

  const MAX_FRAME: nat := 10 * 1024 * 1024
  const MAX_EMPTY: nat := 10

  // What one pass over a buffer comes to. A tripped guard leaves its counter behind.
  datatype Pass =
    | Waiting(frames: seq<seq<byte>>, rest: seq<byte>, empties: nat)
    | Tripped(frames: seq<seq<byte>>, empties: nat)

  function After(f: seq<byte>, p: Pass): Pass {
    p.(frames := [f] + p.frames)
  }

  /** The whole frames at the front of `buf`, and what is left to wait for. */
  function Scan(buf: seq<byte>, empties: nat): Pass
    decreases |buf|
  {
    if |buf| < 4 then Waiting([], buf, empties)
    else
      var n := FromBE(buf[..4]);
      if n == 0 then
        if empties + 1 > MAX_EMPTY then Tripped([], empties + 1) else Scan(buf[4..], empties + 1)
      else if n > MAX_FRAME then Tripped([], 0)
      else if |buf| < 4 + n then Waiting([], buf, 0)
      else After(buf[..4 + n], Scan(buf[4 + n..], 0))
  }

  /** The frames the parser accepts, in order. */
  function Accepted(frames: seq<seq<byte>>): seq<Frame> {
    if frames == [] then [] else AcceptedOf(frames[0]) + Accepted(frames[1..])
  }

  function AcceptedOf(wire: seq<byte>): seq<Frame> {
    var parsed := ParseFull(wire);
    if parsed.Ok? then [parsed.frame] else []
  }

  // ---------------------------------------------------------------- chunking

  function Then(f: seq<seq<byte>>, p: Pass): Pass {
    p.(frames := f + p.frames)
  }

  lemma AfterThen(f: seq<byte>, fs: seq<seq<byte>>, p: Pass)
    ensures After(f, Then(fs, p)) == Then([f] + fs, p) && Then([], p) == p
  {
    assert [f] + (fs + p.frames) == ([f] + fs) + p.frames;
    assert [] + p.frames == p.frames;
  }

  /** Scanning a, then what it left followed by b, is scanning a + b. */
  ghost predicate Splits(a: seq<byte>, b: seq<byte>, empties: nat) {
    match Scan(a, empties)
    case Waiting(f, rest, e) => Scan(a + b, empties) == Then(f, Scan(rest + b, e))
    case Tripped(_, _) => Scan(a + b, empties) == Scan(a, empties)
  }

  lemma {:induction false} ScanSplit(a: seq<byte>, b: seq<byte>, empties: nat)
    ensures Splits(a, b, empties)
    decreases |a|
  {
    AfterThen([], [], Scan(a + b, empties));
    if |a| >= 4 {
      assert (a + b)[..4] == a[..4];
      var n := FromBE(a[..4]);
      if n == 0 {
        if empties + 1 <= MAX_EMPTY {
          assert (a + b)[4..] == a[4..] + b;
          ScanSplit(a[4..], b, empties + 1);
        }
      } else if n <= MAX_FRAME && |a| < 4 + n {
        // A frame that is not complete resets the counter before it waits.
        assert Scan(a + b, 0) == Scan(a + b, empties);
      } else if n <= MAX_FRAME {
        ScanSplit(a[4 + n..], b, 0);
        ScanSplitFrame(a, b, empties);
      }
    }
  }

  // The case of a complete frame in front.
  lemma ScanSplitFrame(a: seq<byte>, b: seq<byte>, empties: nat)
    requires |a| >= 4 && 0 < FromBE(a[..4]) <= MAX_FRAME && 4 + FromBE(a[..4]) <= |a|
    requires Splits(a[4 + FromBE(a[..4])..], b, 0)
    ensures Splits(a, b, empties)
  {
    var n := FromBE(a[..4]);
    assert (a + b)[..4] == a[..4] && (a + b)[..4 + n] == a[..4 + n] && (a + b)[4 + n..] == a[4 + n..] + b;
    var p := Scan(a[4 + n..], 0);
    if p.Waiting? {
      AfterThen(a[..4 + n], p.frames, Scan(p.rest + b, p.empties));
    }
  }

  /** A connection: the frames cut so far, the bytes kept, the guard's counter. */
  datatype Stream = Stream(frames: seq<seq<byte>>, buffer: seq<byte>, empties: nat, open: bool)

  const START: Stream := Stream([], [], 0, true)

  /** The TCP server: a tripped guard closes the connection for good. */
  function Feed(s: Stream, chunk: seq<byte>): Stream {
    if !s.open then s
    else
      match Scan(s.buffer + chunk, s.empties)
      case Waiting(f, rest, e) => Stream(s.frames + f, rest, e, true)
      case Tripped(f, e) => Stream(s.frames + f, [], e, false)
  }

  function FeedAll(s: Stream, chunks: seq<seq<byte>>): Stream
    decreases |chunks|
  {
    if chunks == [] then s else FeedAll(Feed(s, chunks[0]), chunks[1..])
  }

  lemma FeedSplit(s: Stream, a: seq<byte>, b: seq<byte>)
    ensures Feed(Feed(s, a), b) == Feed(s, a + b)
  {
    if s.open {
      ScanSplit(s.buffer + a, b, s.empties);
      assert Splits(s.buffer + a, b, s.empties);
      assert s.buffer + (a + b) == (s.buffer + a) + b;
      if Scan(s.buffer + a, s.empties).Waiting? {
        var p := Scan(s.buffer + a, s.empties);
        var q := Scan(p.rest + b, p.empties);
        assert s.frames + (p.frames + q.frames) == (s.frames + p.frames) + q.frames;
      }
    }
  }

  /** However the stream is cut, frames, leftover, counter and closing are those of one delivery. */
  lemma {:induction false} ChunkingIsInvisible(s: Stream, chunk: seq<byte>, chunks: seq<seq<byte>>)
    ensures FeedAll(Feed(s, chunk), chunks) == Feed(s, chunk + Flatten(chunks))
    decreases |chunks|
  {
    if chunks == [] {
      assert chunk + Flatten([]) == chunk;
    } else {
      FeedSplit(s, chunk, chunks[0]);
      ChunkingIsInvisible(s, chunk + chunks[0], chunks[1..]);
      assert chunk + Flatten(chunks) == (chunk + chunks[0]) + Flatten(chunks[1..]);
    }
  }

  /** Two ways of cutting the same stream end alike. */
  lemma SameBytesSameFrames(chunks: seq<seq<byte>>, others: seq<seq<byte>>)
    requires Flatten(chunks) == Flatten(others)
    ensures FeedAll(START, chunks) == FeedAll(START, others)
  {
    assert Feed(START, []) == START;
    ChunkingIsInvisible(START, [], chunks);
    ChunkingIsInvisible(START, [], others);
    assert [] + Flatten(chunks) == [] + Flatten(others);
  }

  // ---------------------------------------------------------------- the wire round trip

  function EncodeAll(frames: seq<Frame>): seq<seq<byte>> {
    if frames == [] then [] else [Encode(frames[0])] + EncodeAll(frames[1..])
  }

  predicate Sendable(f: Frame) {
    Encodable(f) && BodySize(f) <= MAX_FRAME
  }

  lemma {:induction false} ScanEncoded(frames: seq<Frame>)
    requires forall i :: 0 <= i < |frames| ==> Sendable(frames[i])
    ensures Scan(Flatten(EncodeAll(frames)), 0) == Waiting(EncodeAll(frames), [], 0)
  {
    if frames != [] {
      var f, rest := Encode(frames[0]), Flatten(EncodeAll(frames[1..]));
      assert EncodeAll(frames)[1..] == EncodeAll(frames[1..]);
      var buf := f + rest;
      ParseEncode(frames[0]);
      assert buf[..4] == f[..4] && buf[..|f|] == f && buf[|f|..] == rest;
      hide Encode, ParseFull;
      ScanEncoded(frames[1..]);
    }
  }

  lemma {:induction false} AcceptedEncoded(frames: seq<Frame>)
    requires forall i :: 0 <= i < |frames| ==> Sendable(frames[i])
    ensures Accepted(EncodeAll(frames)) == frames
  {
    if frames != [] {
      AcceptedEncoded(frames[1..]);
      ParseEncode(frames[0]);
      assert EncodeAll(frames)[1..] == EncodeAll(frames[1..]);
    }
  }

  /** Frames sent back to back and cut anywhere arrive as they were, with nothing left over. */
  lemma WireRoundTrip(frames: seq<Frame>, chunks: seq<seq<byte>>)
    requires forall i :: 0 <= i < |frames| ==> Sendable(frames[i])
    requires Flatten(chunks) == Flatten(EncodeAll(frames))
    ensures var s := FeedAll(START, chunks);
            s.open && s.buffer == [] && Accepted(s.frames) == frames
  {
    assert Feed(START, []) == START;
    ChunkingIsInvisible(START, [], chunks);
    assert [] + Flatten(chunks) == Flatten(EncodeAll(frames));
    ScanEncoded(frames);
    AcceptedEncoded(frames);
    assert [] + EncodeAll(frames) == EncodeAll(frames);
  }

  // ---------------------------------------------------------------- the epoll server

  /** The epoll server clears the buffer when a guard trips, and goes on reading. */
  function EpollFeed(s: Stream, chunk: seq<byte>): Stream {
    match Scan(s.buffer + chunk, s.empties)
    case Waiting(f, rest, e) => Stream(s.frames + f, rest, e, true)
    case Tripped(f, e) => Stream(s.frames + f, [], e, true)
  }

  function EpollAll(s: Stream, chunks: seq<seq<byte>>): Stream
    decreases |chunks|
  {
    if chunks == [] then s else EpollAll(EpollFeed(s, chunks[0]), chunks[1..])
  }

  lemma {:induction false} ClosedStaysClosed(s: Stream, chunks: seq<seq<byte>>)
    requires !s.open
    ensures FeedAll(s, chunks) == s
    decreases |chunks|
  {
    if chunks != [] {
      ClosedStaysClosed(s, chunks[1..]);
    }
  }

  /** On a stream that trips no guard of the TCP server the epoll server cuts the same frames. */
  lemma {:induction false} EpollAgreesUntilTripped(s: Stream, chunks: seq<seq<byte>>)
    requires s.open && FeedAll(s, chunks).open
    ensures EpollAll(s, chunks) == FeedAll(s, chunks)
    decreases |chunks|
  {
    if chunks != [] {
      if !Feed(s, chunks[0]).open {
        ClosedStaysClosed(Feed(s, chunks[0]), chunks[1..]);
      }
      EpollAgreesUntilTripped(Feed(s, chunks[0]), chunks[1..]);
    }
  }

  /** Cutting after a, with b to follow, changes no frame cut; and no frame delivered. */
  predicate SameFrames(s: Stream, a: seq<byte>, b: seq<byte>) {
    EpollFeed(EpollFeed(s, a), b).frames == EpollFeed(s, a + b).frames
  }

  predicate SameDeliveries(s: Stream, a: seq<byte>, b: seq<byte>) {
    Accepted(EpollFeed(EpollFeed(s, a), b).frames) == Accepted(EpollFeed(s, a + b).frames)
  }

  // A smallest valid frame.
  const PROBE: seq<byte> := [0, 0, 0, 4, 0, 0, 1, 0]

  lemma ProbeIsFrame(empties: nat)
    ensures Scan(PROBE, empties) == Waiting([PROBE], [], 0)
    ensures Accepted([PROBE]) == [Frame(BATCH, [0], [])]
  {
    assert FromBE([0, 0]) == 0 && FromBE([0, 0, 0]) == 0;
    assert [0, 0, 0, 4][..3] == [0, 0, 0] && [0, 0, 0][..2] == [0, 0] && [0, 1][..1] == [0];
    assert FromBE([0, 0, 0, 4]) == 4;
    assert PROBE[..4] == [0, 0, 0, 4] && PROBE[..8] == PROBE && PROBE[8..] == [];
    assert PROBE[4..] == [0, 0, 1, 0] && PROBE[4..][1..3] == [0, 1] && FromBE([0, 1]) == 1;
    assert [0, 0, 1, 0][3..4] == [0] && [0, 0, 1, 0][4..] == [];
    assert ParseFull(PROBE) == Ok(Frame(BATCH, [0], []));
    assert [PROBE][1..] == [];
  }

  lemma EpollSplits(s: Stream, a: seq<byte>, b: seq<byte>)
    ensures var p := Scan(s.buffer + a, s.empties);
            && (p.Waiting? ==> EpollFeed(EpollFeed(s, a), b) == EpollFeed(s, a + b))
            && (p.Tripped? ==> EpollFeed(s, a + b) == EpollFeed(s, a))
  {
    hide Scan;
    var p := Scan(s.buffer + a, s.empties);
    ScanSplit(s.buffer + a, b, s.empties);
    assert Splits(s.buffer + a, b, s.empties);
    Regroup(s.buffer, a, b);
    if p.Waiting? {
      Regroup(s.frames, p.frames, Scan(p.rest + b, p.empties).frames);
    }
  }

  /**
    But its framing depends on the chunking as soon as a guard trips: a cut after `a` is without
    effect on the frames, for whatever follows, if and only if no guard trips inside `a`. The
    same goes for the frames that the parser accepts and the server delivers.
   */
  lemma EpollChunkingIff(s: Stream, a: seq<byte>)
    ensures (forall b: seq<byte> :: SameFrames(s, a, b)) <==> Scan(s.buffer + a, s.empties).Waiting?
    ensures (forall b: seq<byte> :: SameDeliveries(s, a, b)) <==> Scan(s.buffer + a, s.empties).Waiting?
  {
    hide Scan, Accepted;
    var p, t := Scan(s.buffer + a, s.empties), EpollFeed(s, a);
    if p.Waiting? {
      forall b: seq<byte> ensures SameFrames(s, a, b) && SameDeliveries(s, a, b) {
        EpollSplits(s, a, b);
      }
    } else {
      EpollSplits(s, a, PROBE);
      ProbeIsFrame(t.empties);
      AcceptedConcat(t.frames, [PROBE]);
      assert [] + PROBE == PROBE;
      assert EpollFeed(t, PROBE).frames == t.frames + [PROBE];
      assert !SameFrames(s, a, PROBE) && !SameDeliveries(s, a, PROBE);
    }
  }

  lemma EpollTwo(s: Stream, a: seq<byte>, b: seq<byte>)
    ensures EpollAll(s, [a]) == EpollFeed(s, a)
    ensures EpollAll(s, [a, b]) == EpollFeed(EpollFeed(s, a), b)
  {
    hide EpollFeed;
    assert [a][1..] == [] && [b][1..] == [] && [a, b][1..] == [b];
    assert EpollAll(s, [a]) == EpollAll(EpollFeed(s, a), []);
    assert EpollAll(s, [a, b]) == EpollAll(EpollFeed(s, a), [b]);
    assert EpollAll(EpollFeed(s, a), [b]) == EpollAll(EpollFeed(EpollFeed(s, a), b), []);
  }

  // The length field of a frame far above 10 MB.
  const LONG: seq<byte> := [255, 0, 0, 0]

  lemma LongTrips()
    ensures Scan(LONG, 0) == Tripped([], 0)
  {
    assert LONG[..3] == [255, 0, 0] && [255, 0, 0][..2] == [255, 0] && [255, 0][..1] == [255];
    assert FromBE([255]) == 255 && FromBE([255, 0]) == 65280 && FromBE([255, 0, 0]) == 16711680;
    assert LONG[..4] == LONG && FromBE(LONG) == 4278190080;
  }

  /**
    Such a length and a valid frame behind it: in one delivery the frame is thrown away with the
    buffer, cut after the length it is delivered.
   */
  lemma EpollCutsDiffer()
    ensures Accepted(EpollAll(START, [LONG + PROBE]).frames) == []
    ensures Accepted(EpollAll(START, [LONG, PROBE]).frames) == [Frame(BATCH, [0], [])]
  {
    hide Scan;
    LongTrips();
    EpollSplits(START, LONG, PROBE);
    ProbeIsFrame(0);
    EpollTwo(START, LONG, PROBE);
    EpollTwo(START, LONG + PROBE, PROBE);
    assert [] + LONG == LONG && [] + PROBE == PROBE;
    assert [] + [PROBE] == [PROBE];
  }

  // ---------------------------------------------------------------- the servers' loops

  // A pass comes to `whole` if, after `frames`, it goes on at `offset`.
  ghost predicate GoesOn(whole: Pass, buffer: seq<byte>, frames: seq<seq<byte>>, offset: nat, count: nat) {
    offset <= |buffer| && whole == Then(frames, Scan(buffer[offset..], count))
  }

  // The length field at `offset`.
  function LengthAt(buffer: seq<byte>, offset: nat): nat
    requires offset + 4 <= |buffer|
  {
    FromBE(buffer[offset..offset + 4])
  }

  lemma PassStarts(buffer: seq<byte>, empties: nat)
    ensures GoesOn(Scan(buffer, empties), buffer, [], 0, empties)
  {
    assert buffer[0..] == buffer;
    AfterThen([], [], Scan(buffer, empties));
  }

  lemma PassStops(whole: Pass, buffer: seq<byte>, frames: seq<seq<byte>>, offset: nat, count: nat)
    requires GoesOn(whole, buffer, frames, offset, count)
    ensures |buffer| - offset < 4 ==> whole == Waiting(frames, buffer[offset..], count)
    ensures |buffer| - offset >= 4 ==>
              var n := LengthAt(buffer, offset);
              && (n == 0 && count + 1 > MAX_EMPTY ==> whole == Tripped(frames, count + 1))
              && (n > MAX_FRAME ==> whole == Tripped(frames, 0))
              && (0 < n <= MAX_FRAME && |buffer| - offset < 4 + n ==> whole == Waiting(frames, buffer[offset..], 0))
  {
    assert frames + [] == frames;
    if |buffer| - offset >= 4 {
      assert buffer[offset..][..4] == buffer[offset..offset + 4];
    }
  }

  lemma PassSkips(whole: Pass, buffer: seq<byte>, frames: seq<seq<byte>>, offset: nat, count: nat)
    requires offset + 4 <= |buffer| && GoesOn(whole, buffer, frames, offset, count)
    requires LengthAt(buffer, offset) == 0 && count + 1 <= MAX_EMPTY
    ensures GoesOn(whole, buffer, frames, offset + 4, count + 1)
  {
    assert buffer[offset..][..4] == buffer[offset..offset + 4] && buffer[offset..][4..] == buffer[offset + 4..];
  }

  lemma PassCuts(whole: Pass, buffer: seq<byte>, frames: seq<seq<byte>>, offset: nat, count: nat)
    requires offset + 4 <= |buffer| && GoesOn(whole, buffer, frames, offset, count)
    requires 0 < LengthAt(buffer, offset) <= MAX_FRAME && offset + 4 + LengthAt(buffer, offset) <= |buffer|
    ensures var next := offset + 4 + LengthAt(buffer, offset);
            GoesOn(whole, buffer, frames + [buffer[offset..next]], next, 0)
  {
    var n := LengthAt(buffer, offset);
    var next := offset + 4 + n;
    var p := Scan(buffer[next..], 0);
    assert buffer[offset..][..4] == buffer[offset..offset + 4];
    assert buffer[offset..][..4 + n] == buffer[offset..next] && buffer[offset..][4 + n..] == buffer[next..];
    assert frames + ([buffer[offset..next]] + p.frames) == (frames + [buffer[offset..next]]) + p.frames;
  }

  datatype Status = Going | Wait | Trip

  // One round of either loop: look at the length field at `offset` and act on it.
  method Round(ghost whole: Pass, buffer: seq<byte>, ghost frames: seq<seq<byte>>, delivered: seq<Frame>,
               offset: nat, count: nat)
    returns (ghost frames': seq<seq<byte>>, delivered': seq<Frame>, offset': nat, count': nat, status: Status)
    requires offset < |buffer| && delivered == Accepted(frames) && GoesOn(whole, buffer, frames, offset, count)
    ensures offset <= offset' <= |buffer| && delivered' == Accepted(frames')
    ensures status.Going? ==> offset < offset' && GoesOn(whole, buffer, frames', offset', count')
    ensures status.Wait? ==> whole == Waiting(frames', buffer[offset'..], count')
    ensures status.Trip? ==> whole == Tripped(frames', count')
  {
    hide GoesOn, LengthAt, Accepted;
    PassStops(whole, buffer, frames, offset, count);
    frames', delivered', offset', count' := frames, delivered, offset, count;
    if |buffer| - offset < 4 {
      return frames', delivered', offset', count', Wait;
    }
    var n := LengthAt(buffer, offset);
    if n == 0 {
      count' := count + 1;
      if count' > MAX_EMPTY {
        return frames', delivered', offset', count', Trip;
      }
      PassSkips(whole, buffer, frames, offset, count);
      offset' := offset + 4;
      return frames', delivered', offset', count', Going;
    }
    count' := 0;
    if n > MAX_FRAME {
      return frames', delivered', offset', count', Trip;
    }
    if |buffer| - offset < 4 + n {
      return frames', delivered', offset', count', Wait;
    }
    PassCuts(whole, buffer, frames, offset, count);
    var full := buffer[offset..offset + 4 + n];
    offset' := offset + 4 + n;
    delivered' := Deliver(full, delivered, frames);
    frames' := frames + [full];
    status := Going;
  }

  // Parse one frame and hand it on; one the parser rejects is only logged.
  method Deliver(full: seq<byte>, delivered: seq<Frame>, ghost frames: seq<seq<byte>>) returns (more: seq<Frame>)
    requires delivered == Accepted(frames)
    ensures more == Accepted(frames + [full])
  {
    AcceptedConcat(frames, [full]);
    assert [full][1..] == [] && Accepted([full]) == AcceptedOf(full) + [];
    var parsed := ParseFull(full);
    more := if parsed.Ok? then delivered + [parsed.frame] else delivered;
  }

  // The whole loop over the accumulated buffer.
  method CutFrames(buffer: seq<byte>, emptyCount: nat)
    returns (ghost frames: seq<seq<byte>>, delivered: seq<Frame>, offset: nat, count: nat, tripped: bool)
    ensures offset <= |buffer| && delivered == Accepted(frames)
    ensures Scan(buffer, emptyCount) ==
              if tripped then Tripped(frames, count) else Waiting(frames, buffer[offset..], count)
  {
    frames, delivered, offset, count := [], [], 0, emptyCount;
    var status := Going;
    ghost var whole := Scan(buffer, emptyCount);
    PassStarts(buffer, emptyCount);
    while offset < |buffer| && status.Going?
      invariant offset <= |buffer| && delivered == Accepted(frames)
      invariant status.Going? ==> GoesOn(whole, buffer, frames, offset, count)
      invariant status.Wait? ==> whole == Waiting(frames, buffer[offset..], count)
      invariant status.Trip? ==> whole == Tripped(frames, count)
      decreases |buffer| - offset, status.Going?
    {
      frames, delivered, offset, count, status := Round(whole, buffer, frames, delivered, offset, count);
    }
    if status.Going? {
      PassStops(whole, buffer, frames, offset, count);
    }
    tripped := status.Trip?;
  }

  class TcpConnection {
    var buffer: seq<byte>
    var emptyCount: nat
    var open: bool
    var delivered: seq<Frame>             // handed to the dispatcher
    ghost var frames: seq<seq<byte>>      // cut from the stream, malformed ones included

    ghost predicate Valid()
      reads this
    {
      delivered == Accepted(frames)
    }

    ghost function View(): Stream
      reads this
    {
      Stream(frames, buffer, emptyCount, open)
    }

    constructor ()
      ensures Valid() && View() == START
    {
      buffer, emptyCount, open, delivered, frames := [], 0, true, [], [];
    }

    /** One recv: append, cut, parse and deliver what is whole, keep the rest. */
    method Receive(chunk: seq<byte>)
      requires Valid() && open
      modifies this
      ensures Valid() && View() == Feed(old(View()), chunk)
    {
      buffer := buffer + chunk;
      ghost var cut;
      var parsed, offset, tripped;
      cut, parsed, offset, emptyCount, tripped := CutFrames(buffer, emptyCount);
      AcceptedConcat(frames, cut);
      frames := frames + cut;
      delivered := delivered + parsed;
      if tripped {
        open := false;
        buffer := [];
      } else {
        buffer := buffer[offset..];
      }
    }
  }

  lemma {:induction false} AcceptedConcat(fs: seq<seq<byte>>, gs: seq<seq<byte>>)
    ensures Accepted(fs + gs) == Accepted(fs) + Accepted(gs)
  {
    hide AcceptedOf;
    if fs == [] {
      assert fs + gs == gs && [] + Accepted(gs) == Accepted(gs);
    } else {
      AcceptedConcat(fs[1..], gs);
      assert (fs + gs)[0] == fs[0] && (fs + gs)[1..] == fs[1..] + gs;
      Regroup(AcceptedOf(fs[0]), Accepted(fs[1..]), Accepted(gs));
    }
  }

  lemma Regroup<T>(x: seq<T>, y: seq<T>, z: seq<T>)
    ensures x + (y + z) == (x + y) + z
  {}

  class EpollConnection {
    var buffer: seq<byte>
    var emptyCount: nat
    var delivered: seq<Frame>
    ghost var frames: seq<seq<byte>>

    ghost predicate Valid()
      reads this
    {
      delivered == Accepted(frames)
    }

    ghost function View(): Stream
      reads this
    {
      Stream(frames, buffer, emptyCount, true)
    }

    constructor ()
      ensures Valid() && View() == START
    {
      buffer, emptyCount, delivered, frames := [], 0, [], [];
    }

    /** The same for the epoll server: a tripped guard only empties the buffer. */
    method Receive(chunk: seq<byte>)
      requires Valid()
      modifies this
      ensures Valid() && View() == EpollFeed(old(View()), chunk)
    {
      buffer := buffer + chunk;
      ghost var cut;
      var parsed, offset, tripped;
      cut, parsed, offset, emptyCount, tripped := CutFrames(buffer, emptyCount);
      AcceptedConcat(frames, cut);
      frames := frames + cut;
      delivered := delivered + parsed;
      buffer := if tripped then [] else buffer[offset..];
    }
  }
}

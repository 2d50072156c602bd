/** The guards of both framing loops in numbers, and what becomes of malformed frames. */
module FramingGuards {
  import opened Bytes
  import opened Frames
  import opened Framing

  /** n length fields of zero. */
  function Empties(n: nat): (s: seq<byte>)
    ensures |s| == 4 * n
  {
    if n == 0 then [] else [0, 0, 0, 0] + Empties(n - 1)
  }

  // One empty frame in front of a buffer.
  lemma ScanEmpty(rest: seq<byte>, count: nat)
    ensures Scan([0, 0, 0, 0] + rest, count) == if count >= 10 then Tripped([], count + 1) else Scan(rest, count + 1)
  {
    var buf := [0, 0, 0, 0] + rest;
    assert buf[4..] == rest;
    FourBytes(buf[..4]);
  }

  /** Empty frames are counted, and the one that makes the count exceed ten trips the guard. */
  lemma {:induction false} ScanEmpties(n: nat, rest: seq<byte>, count: nat)
    requires count <= 10
    ensures Scan(Empties(n) + rest, count) == if count + n <= 10 then Scan(rest, count + n) else Tripped([], 11)
    decreases n
  {
    hide Scan;
    if n == 0 {
      assert Empties(n) + rest == rest;
    } else {
      assert Empties(n) + rest == [0, 0, 0, 0] + (Empties(n - 1) + rest);
      ScanEmpty(Empties(n - 1) + rest, count);
      if count < 10 {
        ScanEmpties(n - 1, rest, count + 1);
      }
    }
  }

  lemma ScanNothing(count: nat)
    ensures Scan([], count) == Waiting([], [], count)
  {}

  lemma FeedNothing()
    ensures Feed(START, []) == START
  {
    assert START.buffer + [] == [];
  }

  // A whole frame in front of a buffer is cut, and the count starts again.
  lemma ScanFrame(f: Frame, rest: seq<byte>, count: nat)
    requires Sendable(f)
    ensures Scan(Encode(f) + rest, count) == After(Encode(f), Scan(rest, 0))
  {
    ParseEncode(f);
    var s := Encode(f);
    hide Encode, ParseFull;
    assert (s + rest)[..4] == s[..4] && (s + rest)[..|s|] == s && (s + rest)[|s|..] == rest;
  }

  /** A TCP connection outlives ten empty frames and not an eleventh, however they are cut. */
  lemma EmptyFramesClose(n: nat, chunks: seq<seq<byte>>)
    requires Flatten(chunks) == Empties(n)
    ensures FeedAll(START, chunks).open <==> n <= 10
    ensures FeedAll(START, chunks).frames == []
  {
    hide Scan;
    ScanNothing(0);
    ScanNothing(n);
    FeedNothing();
    ChunkingIsInvisible(START, [], chunks);
    assert [] + Flatten(chunks) == Empties(n) + [];
    ScanEmpties(n, [], 0);
    assert [] + (Empties(n) + []) == Empties(n) + [];
  }

  lemma NothingBefore<T>(s: seq<T>)
    ensures [] + s == s
  {}

  /** A frame between them starts the count of empty frames again. */
  lemma FrameResetsCount(n: nat, f: Frame, m: nat)
    requires Sendable(f) && n <= 10
    ensures var s := Feed(START, Empties(n) + (Encode(f) + (Empties(m) + [])));
            s.frames == [Encode(f)] && (s.open <==> m <= 10)
  {
    hide Scan, Encode, Empties, Sendable;
    var buf := Empties(n) + (Encode(f) + (Empties(m) + []));
    ScanEmpties(n, Encode(f) + (Empties(m) + []), 0);
    ScanFrame(f, Empties(m) + [], n);
    ScanEmpties(m, [], 0);
    ScanNothing(m);
    assert Scan(buf, 0) == After(Encode(f), Scan(Empties(m) + [], 0));
    NothingBefore(buf);
    NothingBefore([Encode(f)]);
    assert [Encode(f)] + [] == [Encode(f)];
  }

  /** A length field closes a TCP connection exactly when it is over ten megabytes. */
  lemma LongFramesClose(length: seq<byte>)
    requires |length| == 4
    ensures Feed(START, length).open <==>
            16777216 * (length[0] as int) + 65536 * (length[1] as int) + 256 * (length[2] as int) + length[3]
            <= 10485760
    ensures Feed(START, length).frames == []
  {
    FourBytes(length);
    assert [] + length == length && length[..4] == length && length[4..] == [];
    ScanNothing(1);
  }

  /** A message of that length is a frame when all of it has come, whatever is in it. */
  predicate Complete(wire: seq<byte>) {
    && 4 < |wire| <= 4 + 10485760
    && 16777216 * (wire[0] as int) + 65536 * (wire[1] as int) + 256 * (wire[2] as int) + wire[3] == |wire| - 4
  }

  lemma {:induction false} ScanComplete(wires: seq<seq<byte>>, count: nat)
    requires forall i :: 0 <= i < |wires| ==> Complete(wires[i])
    ensures Scan(Flatten(wires), count) == Waiting(wires, [], if wires == [] then count else 0)
    decreases |wires|
  {
    if wires != [] {
      var w, rest := wires[0], Flatten(wires[1..]);
      hide Scan, Complete;
      OneComplete(w, rest, count);
      ScanComplete(wires[1..], 0);
      assert [w] + wires[1..] == wires;
    }
  }

  lemma OneComplete(w: seq<byte>, rest: seq<byte>, count: nat)
    requires Complete(w)
    ensures Scan(w + rest, count) == After(w, Scan(rest, 0))
  {
    var buf := w + rest;
    assert buf[..4] == w[..4] && buf[..|w|] == w && buf[|w|..] == rest;
    FourBytes(w[..4]);
    hide FromBE;
  }

  /** Messages cut anywhere arrive whole; those the parser refuses are left out, and only those. */
  lemma MalformedAreDropped(wires: seq<seq<byte>>, bad: seq<byte>, others: seq<seq<byte>>, chunks: seq<seq<byte>>)
    requires forall i :: 0 <= i < |wires| ==> Complete(wires[i])
    requires forall i :: 0 <= i < |others| ==> Complete(others[i])
    requires Complete(bad) && ParseFull(bad).Err?
    requires Flatten(chunks) == Flatten(wires + ([bad] + others))
    ensures var s := FeedAll(START, chunks);
            && s.open && s.buffer == [] && s.frames == wires + ([bad] + others)
            && Accepted(s.frames) == Accepted(wires) + Accepted(others)
  {
    hide Scan, Accepted;
    var all := wires + ([bad] + others);
    ScanNothing(0);
    FeedNothing();
    ChunkingIsInvisible(START, [], chunks);
    assert [] + Flatten(chunks) == Flatten(all) && [] + Flatten(all) == Flatten(all);
    ScanComplete(all, 0);
    assert [] + all == all;
    AcceptedConcat(wires, [bad] + others);
    AcceptedConcat([bad], others);
    OneRefused(bad);
    assert [] + Accepted(others) == Accepted(others);
  }

  lemma OneRefused(bad: seq<byte>)
    requires ParseFull(bad).Err?
    ensures Accepted([bad]) == []
  {
    assert [bad][1..] == [] && Accepted([]) == [];
  }

  /**
    The epoll server keeps the count of a tripped guard: eleven empty frames and then an empty one
    in front of a valid frame deliver nothing, while the valid frame alone is delivered.
   */
  lemma CountOutlivesTrip(f: Frame)
    requires Sendable(f)
    ensures var s := EpollFeed(START, Empties(11) + []);
            && s.frames == [] && EpollFeed(s, [0, 0, 0, 0] + Encode(f)).frames == []
            && EpollFeed(s, Encode(f) + []).frames == [Encode(f)]
  {
    hide Scan, Encode, Empties;
    ScanEmpties(11, [], 0);
    ScanEmpty(Encode(f), 11);
    ScanFrame(f, [], 11);
    ScanNothing(0);
    assert [] + (Empties(11) + []) == Empties(11) + [];
    assert [] + ([0, 0, 0, 0] + Encode(f)) == [0, 0, 0, 0] + Encode(f);
    assert [] + (Encode(f) + []) == Encode(f) + [];
    assert [] + [Encode(f)] == [Encode(f)] && [Encode(f)] + [] == [Encode(f)];
  }

  /** A length that is over the limit starts the count again there. */
  lemma LongTripResetsCount(n: nat, m: nat, f: Frame)
    requires n <= 10 && m <= 10 && Sendable(f)
    ensures var s := EpollFeed(START, Empties(n) + LONG);
            s.frames == [] && EpollFeed(s, Empties(m) + (Encode(f) + [])).frames == [Encode(f)]
  {
    ScanLong(n);
    hide Scan, Encode, Empties;
    ScanEmpties(n, LONG, 0);
    ScanEmpties(m, Encode(f) + [], 0);
    ScanFrame(f, [], m);
    ScanNothing(0);
    assert [] + (Empties(n) + LONG) == Empties(n) + LONG;
    assert [] + (Empties(m) + (Encode(f) + [])) == Empties(m) + (Encode(f) + []);
    assert [] + [Encode(f)] == [Encode(f)] && [Encode(f)] + [] == [Encode(f)];
  }

  lemma ScanLong(count: nat)
    ensures Scan(LONG, count) == Tripped([], 0)
  {
    FourBytes(LONG[..4]);
  }
}

/**
  The append-only record log of storage.cpp: its layout (little-endian, as the source copies
  numbers on the machines it is built for), a decoder for it, and what survives a crash.
 */
module RecordLog {
  import opened Wrappers
  import opened Bytes
  import Frames
  import opened Events

  const FLUSH_BATCH_SIZE: nat := 100

  /** What a record keeps of an event. */
  datatype Record = Record(timestamp: nat, source: nat, id: nat, topic: seq<byte>, body: seq<byte>)

  function RecordOf(e: Event): Record {
    Record(e.timestamp, e.source, e.id, e.topic, e.body)
  }

  /** The widths the fields of an event have in the source. */
  predicate Typed(e: Event) {
    && e.timestamp < WORD && e.source < 256 && e.id < 0x1_0000_0000
    && |e.body| < WORD
  }

  /** The topic length is cut to 32 bits, and a topic whose length is cut to zero is left out. */
  function TopicLength(e: Event): (n: nat)
    ensures n < 0x1_0000_0000 && n <= |e.topic|
    ensures n == |e.topic| <==> |e.topic| < 0x1_0000_0000
  {
    |e.topic| % 0x1_0000_0000
  }

  function Header(e: Event): (s: seq<byte>)
    requires Typed(e)
    ensures |s| == 17
  {
    ToLE(e.timestamp, 8) + [e.source] + ToLE(e.id, 4) + ToLE(TopicLength(e), 4)
  }

  function Encode(e: Event): (s: seq<byte>)
    requires Typed(e)
    ensures |s| >= 25 + TopicLength(e) + |e.body|
  {
    Header(e) + (if TopicLength(e) > 0 then e.topic else []) + ToLE(|e.body|, 8) + e.body
  }

  /** The first record of s and what follows it; None when s ends inside the record. */
  function Decode(s: seq<byte>): Option<(Record, seq<byte>)> {
    if |s| < 17 then None
    else
      var n := FromLE(s[13..17]);
      if |s| < 25 + n then None
      else
        var m := FromLE(s[17 + n..25 + n]);
        if |s| < 25 + n + m then None
        else
          var r := Record(FromLE(s[..8]), s[8], FromLE(s[9..13]), s[17..17 + n], s[25 + n..25 + n + m]);
          Some((r, s[25 + n + m..]))
  }

  function Log(events: seq<Event>): seq<byte>
    requires forall e :: e in events ==> Typed(e)
  {
    if events == [] then [] else Log(events[..|events| - 1]) + Encode(events[|events| - 1])
  }

  /** All whole records at the front of s. */
  function Recover(s: seq<byte>): seq<Record>
    decreases |s|
  {
    match Decode(s)
    case None => []
    case Some((r, rest)) => [r] + Recover(rest)
  }

  // ---------------------------------------------------------------- one record

  lemma {:induction false} FromLEBound(s: seq<byte>)
    ensures FromLE(s) < Pow256(|s|)
  {
    if s != [] {
      FromLEBound(s[1..]);
    }
  }

  lemma HeaderReads(e: Event, s: seq<byte>)
    requires Typed(e) && |s| >= 17 && s[..17] == Header(e)
    ensures FromLE(s[..8]) == e.timestamp && s[8] == e.source && FromLE(s[9..13]) == e.id
    ensures FromLE(s[13..17]) == TopicLength(e)
  {
    hide ToLE, FromLE;
    Pow256Values();
    ReadLE(e.timestamp, 8);
    ReadLE(e.id, 4);
    ReadLE(TopicLength(e), 4);
    var h := Header(e);
    assert h[..8] == ToLE(e.timestamp, 8) && h[9..13] == ToLE(e.id, 4) && h[13..17] == ToLE(TopicLength(e), 4);
    assert s[..8] == h[..8] && s[9..13] == s[..17][9..13] && s[13..17] == s[..17][13..17];
  }

  // ---------------------------------------------------------------- the layout, byte by byte

  lemma FourLE(s: seq<byte>)
    requires |s| == 4
    ensures FromLE(s) == s[0] + 256 * (s[1] as int) + 65536 * (s[2] as int) + 16777216 * (s[3] as int)
  {
    var t1, t2, t3 := s[1..], s[2..], s[3..];
    assert t1[1..] == t2 && t2[1..] == t3 && t3[1..] == [];
    assert FromLE(s) == s[0] + 256 * FromLE(t1) && FromLE(t1) == s[1] + 256 * FromLE(t2);
    assert FromLE(t2) == s[2] + 256 * FromLE(t3) && FromLE(t3) == s[3] + 256 * FromLE([]);
  }

  lemma TimesPower(k: nat, x: nat)
    requires k > 0
    ensures Pow256(k) * x == 256 * (Pow256(k - 1) * x)
  {
    var p := Pow256(k - 1);
    assert Pow256(k) == 256 * p;
    hide Pow256;
    assert (256 * p) * x == 256 * (p * x);
  }

  lemma UnfoldLE(s: seq<byte>)
    requires s != []
    ensures FromLE(s) == s[0] + 256 * FromLE(s[1..])
  {}

  lemma {:induction false} SplitLE(s: seq<byte>, k: nat)
    requires k <= |s|
    ensures FromLE(s) == FromLE(s[..k]) + Pow256(k) * FromLE(s[k..])
    decreases k
  {
    if k == 0 {
      assert s[0..] == s && s[..0] == [];
    } else {
      hide FromLE, Pow256;
      SplitLE(s[1..], k - 1);
      assert s[..k][1..] == s[1..][..k - 1] && s[1..][k - 1..] == s[k..];
      UnfoldLE(s);
      UnfoldLE(s[..k]);
      var low, high := FromLE(s[1..][..k - 1]), Pow256(k - 1) * FromLE(s[k..]);
      TimesPower(k, FromLE(s[k..]));
      assert 256 * (low + high) == 256 * low + 256 * high;
    }
  }

  /** A number of 32 bits at place k. */
  predicate WordAt(s: seq<byte>, k: nat, v: nat)
    requires k + 4 <= |s|
  {
    v == s[k] + 256 * (s[k + 1] as int) + 65536 * (s[k + 2] as int) + 16777216 * (s[k + 3] as int)
  }

  /** And one of 64 bits, as two of 32 with the low one first. */
  predicate LongAt(s: seq<byte>, k: nat, v: nat)
    requires k + 8 <= |s|
  {
    WordAt(s, k, v % 0x1_0000_0000) && WordAt(s, k + 4, v / 0x1_0000_0000)
  }

  lemma ReadsWord(s: seq<byte>, k: nat)
    requires k + 4 <= |s|
    ensures WordAt(s, k, FromLE(s[k..k + 4]))
  {
    FourLE(s[k..k + 4]);
  }

  lemma HighAndLow(low: nat, high: nat)
    requires low < 0x1_0000_0000
    ensures (low + 0x1_0000_0000 * high) % 0x1_0000_0000 == low && (low + 0x1_0000_0000 * high) / 0x1_0000_0000 == high
  {}

  lemma ReadsLong(s: seq<byte>, k: nat)
    requires k + 8 <= |s|
    ensures LongAt(s, k, FromLE(s[k..k + 8]))
  {
    var t := s[k..k + 8];
    SplitLE(t, 4);
    FromLEBound(t[..4]);
    Pow256Values();
    hide FromLE, WordAt, Pow256;
    assert t[..4] == s[k..k + 4] && t[4..] == s[k + 4..k + 4 + 4];
    HighAndLow(FromLE(t[..4]), FromLE(t[4..]));
    ReadsWord(s, k);
    ReadsWord(s, k + 4);
  }

  /**
    Where everything lies in a record: the time at 0, the source at 8, the id at 9, the topic's
    length modulo 2^32 at 13, at 17 the whole topic unless that is zero, then the body behind its
    own length.
   */
  lemma EncodeLayout(e: Event)
    requires Typed(e)
    ensures var s, length := Encode(e), |e.topic| % 0x1_0000_0000;
            var n := if length == 0 then 0 else |e.topic|;
            && |s| == 25 + n + |e.body|
            && LongAt(s, 0, e.timestamp) && s[8] == e.source && WordAt(s, 9, e.id) && WordAt(s, 13, length)
            && s[17..17 + n] == e.topic[..n] && LongAt(s, 17 + n, |e.body|) && s[25 + n..] == e.body
  {
    hide ToLE, FromLE, Header, WordAt, LongAt;
    var s, m := Encode(e), |e.body|;
    var t := if TopicLength(e) > 0 then e.topic else [];
    var n := |t|;
    assert s[..17] == Header(e);
    HeaderReads(e, s);
    Pow256Values();
    ReadLE(m, 8);
    assert s == Header(e) + t + ToLE(m, 8) + e.body;
    assert s[17..17 + n] == t && s[17 + n..25 + n] == ToLE(m, 8) && s[25 + n..] == e.body;
    assert t == e.topic[..n];
    assert s[0..0 + 8] == s[..8] && s[9..9 + 4] == s[9..13] && s[13..13 + 4] == s[13..17];
    assert s[17 + n..17 + n + 8] == s[17 + n..25 + n];
    ReadsLong(s, 0);
    ReadsWord(s, 9);
    ReadsWord(s, 13);
    ReadsLong(s, 17 + n);
  }

  /** A record is read back, whatever follows it, as long as its topic is shorter than 2^32. */
  lemma DecodeEncode(e: Event, rest: seq<byte>)
    requires Typed(e) && |e.topic| < 0x1_0000_0000
    ensures Decode(Encode(e) + rest) == Some((RecordOf(e), rest))
  {
    hide ToLE, FromLE, Header;
    var s, n, m := Encode(e) + rest, |e.topic|, |e.body|;
    assert s[..17] == Header(e);
    HeaderReads(e, s);
    Pow256Values();
    ReadLE(m, 8);
    assert s == Header(e) + e.topic + ToLE(m, 8) + e.body + rest;
    assert s[17..17 + n] == e.topic && s[17 + n..25 + n] == ToLE(m, 8);
    assert s[25 + n..25 + n + m] == e.body && s[25 + n + m..] == rest;
  }

  /** And only then: a longer topic is never read back. */
  lemma DecodeEncodeIff(e: Event)
    requires Typed(e)
    ensures Decode(Encode(e)) == Some((RecordOf(e), [])) <==> |e.topic| < 0x1_0000_0000
  {
    assert Encode(e) + [] == Encode(e);
    if |e.topic| < 0x1_0000_0000 {
      DecodeEncode(e, []);
    } else {
      Pow256Values();
      FromLEBound(Encode(e)[13..17]);
    }
  }

  /** A record cut short is not read at all. */
  lemma DecodeCut(e: Event, k: nat)
    requires Typed(e) && |e.topic| < 0x1_0000_0000 && k < |Encode(e)|
    ensures Decode(Encode(e)[..k]).None?
  {
    hide ToLE, FromLE, Header;
    var s, n, m := Encode(e), |e.topic|, |e.body|;
    var t := s[..k];
    if k >= 17 {
      assert t[..17] == s[..17] == Header(e);
      HeaderReads(e, t);
      if k >= 25 + n {
        Pow256Values();
        ReadLE(m, 8);
        assert s == Header(e) + e.topic + ToLE(m, 8) + e.body;
        assert t[17 + n..25 + n] == s[17 + n..25 + n] == ToLE(m, 8);
      }
    }
  }

  // ---------------------------------------------------------------- the log

  predicate Storable(events: seq<Event>) {
    forall e :: e in events ==> Typed(e) && |e.topic| < 0x1_0000_0000
  }

  function Records(events: seq<Event>): (r: seq<Record>)
    ensures |r| == |events| && forall i :: 0 <= i < |r| ==> r[i] == RecordOf(events[i])
  {
    if events == [] then [] else [RecordOf(events[0])] + Records(events[1..])
  }

  lemma LogBack(events: seq<Event>, e: Event)
    requires Typed(e) && forall x :: x in events ==> Typed(x)
    ensures Log(events + [e]) == Log(events) + Encode(e)
  {
    hide Encode;
    assert (events + [e])[..|events|] == events;
  }

  lemma {:induction false} LogFront(events: seq<Event>)
    requires events != [] && forall e :: e in events ==> Typed(e)
    ensures Log(events) == Encode(events[0]) + Log(events[1..])
    decreases |events|
  {
    hide Encode, Log;
    var last := |events| - 1;
    assert events == events[..last] + [events[last]];
    LogBack(events[..last], events[last]);
    if last == 0 {
      LogNone();
    } else {
      LogFront(events[..last]);
      LogBack(events[1..last], events[last]);
      assert events[..last][1..] == events[1..last];
      assert events[1..last] + [events[last]] == events[1..];
    }
  }

  lemma LogNone()
    ensures Log([]) == []
  {}

  /** How many events lie whole within the first k bytes of their log. */
  function Whole(events: seq<Event>, k: nat): (n: nat)
    requires forall e :: e in events ==> Typed(e)
    ensures n <= |events|
  {
    if events == [] || k < |Encode(events[0])| then 0 else 1 + Whole(events[1..], k - |Encode(events[0])|)
  }

  /** From a log cut anywhere the decoder gets exactly the records that lie whole before the cut. */
  lemma {:induction false} RecoverCut(events: seq<Event>, k: nat)
    requires Storable(events) && k <= |Log(events)|
    ensures Recover(Log(events)[..k]) == Records(events[..Whole(events, k)])
    decreases |events|
  {
    hide Encode, Decode, Log;
    if events == [] {
      EmptyLog(k);
    } else {
      var e, cut := events[0], Log(events)[..k];
      LogFront(events);
      if k < |Encode(e)| {
        assert cut == Encode(e)[..k];
        DecodeCut(e, k);
      } else {
        var rest := Log(events[1..])[..k - |Encode(e)|];
        assert cut == Encode(e) + rest;
        DecodeEncode(e, rest);
        RecoverCut(events[1..], k - |Encode(e)|);
        var n := Whole(events, k);
        assert events[..n][1..] == events[1..][..n - 1];
      }
    }
  }

  lemma EmptyLog(k: nat)
    requires k <= |Log([])|
    ensures Recover(Log([])[..k]) == []
  {
    assert Log([])[..k] == [];
  }

  lemma {:induction false} WholeReaches(events: seq<Event>, m: nat, k: nat)
    requires (forall e :: e in events ==> Typed(e)) && m <= |events| && k >= |Log(events[..m])|
    ensures Whole(events, k) >= m
    decreases m
  {
    hide Encode, Log;
    if m > 0 {
      LogFront(events[..m]);
      assert events[..m][1..] == events[1..][..m - 1] && events[..m][0] == events[0];
      WholeReaches(events[1..], m - 1, k - |Encode(events[0])|);
    }
  }

  /** The decoder gets back exactly what was stored. */
  lemma LogRoundTrip(events: seq<Event>)
    requires Storable(events)
    ensures Recover(Log(events)) == Records(events)
  {
    hide Log, Recover, Records, Whole;
    assert events[..|events|] == events && Log(events)[..|Log(events)|] == Log(events);
    WholeReaches(events, |events|, |Log(events)|);
    RecoverCut(events, |Log(events)|);
  }

  /** So two sequences of events with the same log have the same records. */
  lemma LogInjective(a: seq<Event>, b: seq<Event>)
    requires Storable(a) && Storable(b) && Log(a) == Log(b)
    ensures Records(a) == Records(b)
  {
    LogRoundTrip(a);
    LogRoundTrip(b);
  }

  lemma RecordsPrefix(events: seq<Event>, n: nat)
    requires n <= |events|
    ensures Records(events[..n]) <= Records(events)
  {
    hide RecordOf;
    var r, all := Records(events[..n]), Records(events);
    forall i | 0 <= i < |r| ensures r[i] == all[i] {
      assert events[..n][i] == events[i];
    }
  }

  lemma {:induction false} WholeFits(events: seq<Event>, k: nat)
    requires forall e :: e in events ==> Typed(e)
    ensures |Log(events[..Whole(events, k)])| <= k
    decreases |events|
  {
    hide Encode, Log;
    var n := Whole(events, k);
    if n == 0 {
      assert events[..0] == [];
      LogNone();
    } else {
      WholeFits(events[1..], k - |Encode(events[0])|);
      LogFront(events[..n]);
      assert events[..n][0] == events[0] && events[..n][1..] == events[1..][..n - 1];
    }
  }

  // ---------------------------------------------------------------- crashes

  /** The file after a crash: a prefix of what was written that holds all that was flushed. */
  predicate Survives(disk: seq<byte>, file: seq<byte>, flushed: nat) {
    flushed <= |disk| <= |file| && disk == file[..|disk|]
  }

  /** What a write that failed may leave behind the log: the record of e, cut short. */
  predicate TornFrom(torn: seq<byte>, e: Event)
    requires Typed(e)
  {
    |torn| < |Encode(e)| && torn == Encode(e)[..|torn|]
  }

  /** From any surviving file the decoder gets a prefix of the records, short of none that was flushed. */
  lemma SurvivorsDecode(events: seq<Event>, flushed: nat, e: Event, torn: seq<byte>, disk: seq<byte>)
    requires Storable(events + [e]) && flushed <= |events| && TornFrom(torn, e)
    requires Survives(disk, Log(events) + torn, |Log(events[..flushed])|)
    ensures Recover(disk) <= Records(events) && flushed <= |Recover(disk)|
  {
    hide Log, Recover, Records, Whole, Encode;
    var all, k := events + [e], |disk|;
    assert forall x :: x in events ==> x in all;
    LogBack(events, e);
    assert disk == Log(all)[..k];
    RecoverCut(all, k);
    assert all[..flushed] == events[..flushed];
    WholeReaches(all, flushed, k);
    WholeFits(all, k);
    var n := Whole(all, k);
    assert all[..|all|] == all;
    assert all[..n] == events[..n];
    RecordsPrefix(events, n);
  }

  // ---------------------------------------------------------------- opening a file that was torn

  /** What follows the whole records at the front of s. */
  function Rest(s: seq<byte>): (t: seq<byte>)
    ensures Decode(t).None?
    decreases |s|
  {
    match Decode(s)
    case None => s
    case Some((_, rest)) => Rest(rest)
  }

  lemma DecodeMore(s: seq<byte>, t: seq<byte>)
    requires Decode(s).Some?
    ensures Decode(s + t) == Some((Decode(s).value.0, Decode(s).value.1 + t))
  {
    hide FromLE;
    assert (s + t)[13..17] == s[13..17];
    var n := FromLE(s[13..17]);
    assert (s + t)[17 + n..25 + n] == s[17 + n..25 + n];
    var m := FromLE(s[17 + n..25 + n]);
    assert (s + t)[..8] == s[..8] && (s + t)[9..13] == s[9..13] && (s + t)[17..17 + n] == s[17..17 + n];
    assert (s + t)[25 + n..25 + n + m] == s[25 + n..25 + n + m] && (s + t)[25 + n + m..] == s[25 + n + m..] + t;
  }

  lemma {:induction false} RecoverMore(s: seq<byte>, t: seq<byte>)
    ensures Recover(s + t) == Recover(s) + Recover(Rest(s) + t)
    decreases |s|
  {
    hide Decode;
    if Decode(s).Some? {
      DecodeShrinks(s);
      DecodeMore(s, t);
      RecoverMore(Decode(s).value.1, t);
    }
  }

  lemma DecodeShrinks(s: seq<byte>)
    ensures Decode(s).Some? ==> |Decode(s).value.1| < |s|
  {}

  predicate AppendsWell(base: seq<byte>, e: Event)
    requires Typed(e)
  {
    Recover(base + Encode(e)) == Recover(base) + [RecordOf(e)]
  }

  // The first record read takes the lowest byte of its timestamp from the torn one.
  lemma TornSpoils(torn: seq<byte>, e: Event)
    requires torn != [] && Typed(e) && e.timestamp == if torn[0] == 0 then 1 else 0
    ensures Recover(torn + Encode(e)) != [RecordOf(e)]
  {
    hide Encode, FromLE;
    var s := torn + Encode(e);
    if Decode(s).Some? {
      LowByte(s[..8]);
      assert s[..8][0] == torn[0];
      assert Recover(s)[0] == Decode(s).value.0 && Recover(s)[0].timestamp == FromLE(s[..8]);
    }
  }

  lemma LowByte(s: seq<byte>)
    requires s != []
    ensures FromLE(s) % 256 == s[0]
  {}

  lemma RecoverOne(e: Event)
    requires Storable([e])
    ensures Recover(Encode(e)) == [RecordOf(e)] && Typed(e)
  {
    assert e in [e];
    DecodeEncode(e, []);
    assert Encode(e) + [] == Encode(e);
    assert Recover([]) == [];
  }

  /**
    The source opens its file for append without looking at it. The next record can always be
    read back behind the old ones if and only if the file does not end inside a record.
   */
  lemma AppendIff(base: seq<byte>)
    ensures (forall e :: Typed(e) && |e.topic| < 0x1_0000_0000 ==> AppendsWell(base, e)) <==> Rest(base) == []
  {
    hide Recover, Encode;
    if Rest(base) == [] {
      forall e | Typed(e) && |e.topic| < 0x1_0000_0000 ensures AppendsWell(base, e) {
        RecoverMore(base, Encode(e));
        RecoverOne(e);
        assert [] + Encode(e) == Encode(e);
      }
    } else {
      var e := Event(0, Frames.BATCH, 0, if Rest(base)[0] == 0 then 1 else 0, [], []);
      RecoverMore(base, Encode(e));
      TornSpoils(Rest(base), e);
      if AppendsWell(base, e) {
        SameFront(Recover(base), Recover(Rest(base) + Encode(e)), [RecordOf(e)]);
        assert false;
      }
    }
  }

  lemma SameFront<T>(x: seq<T>, y: seq<T>, z: seq<T>)
    requires x + y == x + z
    ensures y == z
  {
    assert y == (x + y)[|x|..] && z == (x + z)[|x|..];
  }

  // ---------------------------------------------------------------- the engine

  class StorageEngine {
    var file: seq<byte>
    var good: bool              // the state of the file stream
    var eventCount: nat
    ghost var base: seq<byte>   // what the file held when it was opened
    ghost var events: seq<Event>
    ghost var flushed: nat      // how many of them the last flush has covered
    ghost var torn: seq<byte>   // what a failed write left
    ghost var lost: Event       // the event whose write failed

    ghost predicate Valid()
      reads this
    {
      && (forall e :: e in events ==> Typed(e)) && Typed(lost)
      && file == base + Log(events) + torn
      && TornFrom(torn, lost) && (good ==> torn == [])
      && eventCount < FLUSH_BATCH_SIZE
      && flushed <= |events| <= flushed + (if good then eventCount else FLUSH_BATCH_SIZE)
    }

    constructor (base: seq<byte>)
      ensures Valid() && good && this.base == base == file && events == []
    {
      file, good, eventCount := base, true, 0;
      this.base, events, flushed, torn := base, [], 0, [];
      lost := Event(0, Frames.BATCH, 0, 0, [], []);
    }

    /** Opening the file for append; when that fails there is no engine. */
    static method Open(content: Option<seq<byte>>) returns (engine: StorageEngine?)
      ensures engine == null <==> content.None?
      ensures engine != null ==> fresh(engine) && engine.Valid() && engine.good
      ensures engine != null ==> engine.events == [] && engine.file == engine.base == content.value
    {
      if content.None? {
        return null;
      }
      engine := new StorageEngine(content.value);
    }

    /** The stream's own flush, which does nothing on a stream that has failed and may fail itself. */
    method SyncFile(works: bool)
      modifies this`flushed, this`good
      ensures good == (old(good) && works)
      ensures flushed == if good then |events| else old(flushed)
    {
      if good {
        if works {
          flushed := |events|;
        } else {
          good := false;
        }
      }
    }

    method Flush(works: bool)
      requires Valid()
      modifies this`flushed, this`good
      ensures Valid() && good == (old(good) && works)
      ensures flushed == if good then |events| else old(flushed)
    {
      SyncFile(works);
    }

    /**
      The stream takes `taken` bytes of the record, all of it if it can; otherwise the call throws,
      here as not ok, and so does every later one. `works` is how a flush would end.
     */
    method StoreEvent(e: Event, taken: nat, works: bool) returns (ok: bool)
      requires Valid() && Typed(e)
      modifies this
      ensures Valid() && base == old(base) && (ok <==> old(good) && taken >= |Encode(e)|)
      ensures ok ==> events == old(events) + [e] && file == old(file) + Encode(e)
      ensures ok ==> flushed == if old(eventCount) == 99 && works then |events| else old(flushed)
      ensures ok ==> good == (old(eventCount) < 99 || works)
      ensures !ok ==> !good && events == old(events) && flushed == old(flushed) && eventCount == old(eventCount)
      ensures !old(good) ==> file == old(file)
    {
      hide Encode, Log;
      var buffer := Serialize(e);
      if !good {
        return false;
      }
      if taken < |buffer| {
        file, good := file + buffer[..taken], false;
        torn, lost := buffer[..taken], e;
        return false;
      }
      LogBack(events, e);
      file := file + buffer;
      events := events + [e];
      eventCount := eventCount + 1;
      assert file == base + Log(events) + torn;
      if eventCount >= FLUSH_BATCH_SIZE {
        SyncFile(works);
        eventCount := 0;
      }
      ok := true;
    }

    // The buffer that one write call sends to the file.
    method Serialize(e: Event) returns (buffer: seq<byte>)
      requires Typed(e)
      ensures buffer == Encode(e)
    {
      hide ToLE;
      buffer := ToLE(e.timestamp, 8);
      buffer := buffer + [e.source];
      buffer := buffer + ToLE(e.id, 4);
      var topicLen := TopicLength(e);
      buffer := buffer + ToLE(topicLen, 4);
      assert buffer == Header(e);
      if topicLen > 0 {
        buffer := buffer + e.topic;
      }
      buffer := buffer + ToLE(|e.body|, 8);
      buffer := buffer + e.body;
    }

    /**
      After a crash the decoder gets the records the file held before the engine opened it. If that
      file did not end inside a record it then gets a prefix of the engine's own, and misses at most
      the last 99, or the last 100 if the stream had failed.
     */
    lemma CrashLosesLittle(disk: seq<byte>)
      requires Valid() && Storable(events + [lost])
      ensures Survives(disk, file, |base + Log(events[..flushed])|) ==>
        && Recover(base) <= Recover(disk)
        && (Rest(base) == [] ==>
              && Recover(disk) <= Recover(base) + Records(events)
              && |Recover(base)| + |events| - (if good then 99 else 100) <= |Recover(disk)|)
    {
      hide Log, Recover, Records, Encode, Rest, Decode;
      if Survives(disk, file, |base + Log(events[..flushed])|) {
        var own := disk[|base|..];
        assert disk == base + own;
        RecoverMore(base, own);
        if Rest(base) == [] {
          assert [] + own == own && own == (Log(events) + torn)[..|own|];
          SurvivorsDecode(events, flushed, lost, torn, own);
        }
      }
    }
  }
}

/** The frame body of frame_parser.cpp and the encoding the clients of the repository send. */
module Frames {
  import opened Bytes

  datatype Priority = BATCH | LOW | MEDIUM | HIGH | CRITICAL

  function Rank(p: Priority): (r: nat)
    ensures r <= 4
  {
    match p
    case BATCH => 0
    case LOW => 1
    case MEDIUM => 2
    case HIGH => 3
    case CRITICAL => 4
  }

  function OfRank(r: nat): (p: Priority)
    requires r <= 4
    ensures Rank(p) == r
  {
    if r == 0 then BATCH else if r == 1 then LOW else if r == 2 then MEDIUM else if r == 3 then HIGH else CRITICAL
  }

  datatype Frame = Frame(priority: Priority, topic: seq<byte>, payload: seq<byte>)

  datatype Malformed = MissingLength | LengthMismatch | TooSmall | BadPriority | TopicOverrun | EmptyTopic

  datatype Parsed = Ok(frame: Frame) | Err(reason: Malformed)

  function ParseBody(data: seq<byte>): Parsed {
    if |data| < 3 then Err(TooSmall)
    else if data[0] > 4 then Err(BadPriority)
    else
      var topicLen := FromBE(data[1..3]);
      if |data| < 3 + topicLen then Err(TopicOverrun)
      else if topicLen == 0 then Err(EmptyTopic)
      else Ok(Frame(OfRank(data[0]), data[3..3 + topicLen], data[3 + topicLen..]))
  }

  function ParseFull(full: seq<byte>): Parsed {
    if |full| < 4 then Err(MissingLength)
    else if FromBE(full[..4]) != |full| - 4 then Err(LengthMismatch)
    else ParseBody(full[4..])
  }

  function BodySize(f: Frame): nat {
    3 + |f.topic| + |f.payload|
  }

  /** A frame the two length fields can describe. */
  predicate Encodable(f: Frame) {
    1 <= |f.topic| <= 65535 && BodySize(f) < 0x1_0000_0000
  }

  function Encode(f: Frame): (s: seq<byte>)
    ensures |s| == 4 + BodySize(f)
  {
    ToBE(BodySize(f), 4) + ([Rank(f.priority)] + ToBE(|f.topic|, 2) + f.topic + f.payload)
  }

  lemma ParseEncode(f: Frame)
    requires Encodable(f)
    ensures FromBE(Encode(f)[..4]) == BodySize(f) && ParseFull(Encode(f)) == Ok(f)
  {
    Pow256Values();
    ReadBE(BodySize(f), 4);
    ReadBE(|f.topic|, 2);
    var s := Encode(f);
    var body := s[4..];
    assert s[..4] == ToBE(BodySize(f), 4);
    assert body[1..3] == ToBE(|f.topic|, 2);
    assert body[3..3 + |f.topic|] == f.topic && body[3 + |f.topic|..] == f.payload;
  }

  /** Whatever the parser accepts is the encoding of what it returns. */
  lemma EncodeParse(s: seq<byte>)
    requires ParseFull(s).Ok?
    ensures Encodable(ParseFull(s).frame) && Encode(ParseFull(s).frame) == s
  {
    hide FromBE, ToBE;
    Pow256Values();
    var f := ParseFull(s).frame;
    var body := s[4..];
    WriteBE(s[..4]);
    WriteBE(body[1..3]);
    assert s == s[..4] + body;
    assert body == [body[0]] + body[1..3] + f.topic + f.payload;
  }

  // ---------------------------------------------------------------- the layout, byte by byte

  lemma FourBytes(s: seq<byte>)
    requires |s| == 4
    ensures FromBE(s) == 16777216 * (s[0] as int) + 65536 * (s[1] as int) + 256 * (s[2] as int) + s[3]
  {
    TwoBytes(s[..2]);
    assert s[..3][..2] == s[..2] && s[..3][2] == s[2];
    assert FromBE(s) == 256 * FromBE(s[..3]) + s[3] && FromBE(s[..3]) == 256 * FromBE(s[..2]) + s[2];
  }

  lemma TwoBytes(s: seq<byte>)
    requires |s| == 2
    ensures FromBE(s) == 256 * (s[0] as int) + s[1]
  {
    assert s[..1][..0] == [] && s[..1][0] == s[0];
    assert FromBE(s) == 256 * FromBE(s[..1]) + s[1] && FromBE(s[..1]) == 256 * FromBE(s[..1][..0]) + s[0];
  }

  /** The bytes of a message with a length that counts what follows it, and of the frame in it. */
  predicate LaidOut(s: seq<byte>, f: Frame) {
    && |s| == 7 + |f.topic| + |f.payload|
    && 16777216 * (s[0] as int) + 65536 * (s[1] as int) + 256 * (s[2] as int) + s[3] == |s| - 4
    && s[4] == (match f.priority case BATCH => 0 case LOW => 1 case MEDIUM => 2 case HIGH => 3 case CRITICAL => 4)
    && 256 * (s[5] as int) + s[6] == |f.topic| > 0
    && s[7..] == f.topic + f.payload
  }

  /** The parser accepts exactly the messages so laid out, and a message lays out one frame only. */
  lemma ParsesIff(s: seq<byte>, f: Frame)
    ensures ParseFull(s) == Ok(f) <==> LaidOut(s, f)
  {
    if |s| >= 7 {
      var body := s[4..];
      assert body[0] == s[4] && body[1..3] == s[5..7] && |s[5..7]| == 2 && |s[..4]| == 4;
      FourBytes(s[..4]);
      TwoBytes(s[5..7]);
      hide FromBE;
      var n := 256 * (s[5] as int) + s[6];
      assert FromBE(body[1..3]) == n;
      if 3 + n <= |body| {
        assert body[3..3 + n] == s[7..7 + n] && body[3 + n..] == s[7 + n..];
        assert s[7..] == s[7..7 + n] + s[7 + n..];
        SameParts(s[7..], n, f.topic, f.payload);
      }
    }
  }

  // Cut at n, a string is the two parts exactly if it is their sum and the first has n bytes.
  lemma SameParts(s: seq<byte>, n: nat, x: seq<byte>, y: seq<byte>)
    requires n <= |s|
    ensures s[..n] == x && s[n..] == y <==> |x| == n && s == x + y
  {
    assert s == s[..n] + s[n..];
    if |x| == n && s == x + y {
      assert s[..n] == x && s[n..] == y;
    }
  }

  /** Why a message is refused: the first of six checks that it fails. */
  lemma RefusedBecause(s: seq<byte>)
    ensures ParseFull(s) == Err(MissingLength) <==> |s| < 4
    ensures |s| >= 4 ==>
              var length := 16777216 * (s[0] as int) + 65536 * (s[1] as int) + 256 * (s[2] as int) + s[3];
              && (ParseFull(s) == Err(LengthMismatch) <==> length != |s| - 4)
              && (ParseFull(s) == Err(TooSmall) <==> length == |s| - 4 < 3)
              && (ParseFull(s) == Err(BadPriority) <==> length == |s| - 4 >= 3 && s[4] > 4)
              && (ParseFull(s) == Err(TopicOverrun) <==>
                    length == |s| - 4 >= 3 && s[4] <= 4 && 256 * (s[5] as int) + s[6] > |s| - 7)
              && (ParseFull(s) == Err(EmptyTopic) <==>
                    length == |s| - 4 >= 3 && s[4] <= 4 && s[5] == 0 == s[6])
  {
    if |s| >= 4 {
      FourBytes(s[..4]);
      if |s| >= 7 {
        assert s[4..][1..3] == s[5..7] && s[4..][0] == s[4];
        TwoBytes(s[5..7]);
      }
      hide FromBE;
    }
  }
}

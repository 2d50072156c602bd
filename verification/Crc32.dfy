/**
  The checksum of event_factory.cpp: table construction and byte loop, against the bit-at-a-time
  CRC of section 8 of RFC 1952, and the errors the checksum cannot miss. What does not depend
  on the polynomial is stated for any reflected polynomial p.
 */
module Crc32 {
  import opened Bitwise
  import opened Digits
  import opened Bytes

  const POLY: nat := 0xEDB88320
  const ONES: nat := 0xFFFFFFFF

  /** One division step of the register. */
  function Bit(p: nat, x: nat): nat {
    if x % 2 == 1 then Xor(x / 2, p) else x / 2
  }

  function Bits(p: nat, x: nat, k: nat): nat
    decreases k
  {
    if k == 0 then x else Bits(p, Bit(p, x), k - 1)
  }

  // ---------------------------------------------------------------- the reference

  /** The register after one more message bit. */
  function Clock(p: nat, crc: nat, b: bool): nat {
    if (crc % 2 == 1) != b then Xor(crc / 2, p) else crc / 2
  }

  function BitSerial(p: nat, crc: nat, bits: seq<bool>): nat
    decreases |bits|
  {
    if bits == [] then crc else BitSerial(p, Clock(p, crc, bits[0]), bits[1..])
  }

  /** The low k bits of v in the order they enter the register, least significant first. */
  function BitsOf(v: nat, k: nat): (s: seq<bool>)
    ensures |s| == k
    decreases k
  {
    if k == 0 then [] else [v % 2 == 1] + BitsOf(v / 2, k - 1)
  }

  function Message(data: seq<byte>): (s: seq<bool>)
    ensures |s| == 8 * |data|
  {
    if data == [] then [] else BitsOf(data[0], 8) + Message(data[1..])
  }

  function Reference(data: seq<byte>): nat {
    Xor(BitSerial(POLY, ONES, Message(data)), ONES)
  }

  // ---------------------------------------------------------------- linearity

  lemma BitLinear(p: nat, a: nat, b: nat)
    ensures Bit(p, Xor(a, b)) == Xor(Bit(p, a), Bit(p, b))
  {
    hide Xor;
    XorHalves(a, b);
    XorThird(a / 2, b / 2, p);
  }

  lemma {:induction false} BitsLinear(p: nat, a: nat, b: nat, k: nat)
    ensures Bits(p, Xor(a, b), k) == Xor(Bits(p, a, k), Bits(p, b, k))
    decreases k
  {
    if k > 0 {
      BitLinear(p, a, b);
      BitsLinear(p, Bit(p, a), Bit(p, b), k - 1);
    }
  }

  // Clear low bits are only shifted out.
  lemma {:induction false} BitsOfClear(p: nat, q: nat, k: nat)
    ensures Bits(p, q * Pow2(k), k) == q && LowClear(q * Pow2(k), k)
    decreases k
  {
    if k > 0 {
      assert q * Pow2(k) == 2 * (q * Pow2(k - 1));
      BitsOfClear(p, q, k - 1);
    }
  }

  /** k bit steps of a register: its high part, xored with k steps of its low k bits. */
  lemma TableStep(p: nat, q: nat, r: nat, k: nat)
    requires r < Pow2(k)
    ensures Bits(p, q * Pow2(k) + r, k) == Xor(q, Bits(p, r, k))
  {
    BitsOfClear(p, q, k);
    XorDisjoint(q * Pow2(k), r, k);
    BitsLinear(p, q * Pow2(k), r, k);
  }

  lemma OddSum(x: nat, b: nat)
    requires b < 2
    ensures (x + b) % 2 == 1 <==> (x % 2 == 1) != (b == 1)
    ensures b / 2 == 0
  {}

  lemma ClockIsBit(p: nat, crc: nat, b: nat)
    requires b < 2
    ensures Clock(p, crc, b == 1) == Bit(p, Xor(crc, b))
  {
    hide Xor;
    XorHalves(crc, b);
    XorZero(crc / 2);
    OddSum(crc, b);
  }

  lemma BitOfEven(p: nat, q: nat)
    ensures Bit(p, 2 * q) == q
  {}

  // A register with a number xored in, one step later.
  lemma BitAbsorbs(p: nat, crc: nat, v: nat)
    ensures Bit(p, Xor(crc, v)) == Xor(Clock(p, crc, v % 2 == 1), v / 2)
  {
    hide Xor, Bit, Clock;
    var b, h := v % 2, 2 * (v / 2);
    BitOfEven(p, v / 2);
    assert LowClear(h, 1) by { assert LowClear(h / 2, 0); }
    XorDisjoint(h, b, 1);
    XorComm(h, b);
    XorAssoc(crc, b, h);
    BitLinear(p, Xor(crc, b), h);
    ClockIsBit(p, crc, b);
  }

  /** Entering k bits one by one is k steps of the register after all were xored in. */
  lemma {:induction false} SerialBits(p: nat, crc: nat, v: nat, k: nat)
    requires v < Pow2(k)
    ensures BitSerial(p, crc, BitsOf(v, k)) == Bits(p, Xor(crc, v), k)
    decreases k
  {
    if k == 0 {
      XorComm(crc, 0);
    } else {
      BitAbsorbs(p, crc, v);
      SerialBits(p, Clock(p, crc, v % 2 == 1), v / 2, k - 1);
      assert BitsOf(v, k)[1..] == BitsOf(v / 2, k - 1);
    }
  }

  lemma {:induction false} SerialConcat(p: nat, crc: nat, x: seq<bool>, y: seq<bool>)
    ensures BitSerial(p, crc, x + y) == BitSerial(p, BitSerial(p, crc, x), y)
    decreases |x|
  {
    if x == [] {
      assert x + y == y;
    } else {
      assert (x + y)[1..] == x[1..] + y;
      SerialConcat(p, Clock(p, crc, x[0]), x[1..], y);
    }
  }

  // ---------------------------------------------------------------- the table and the byte loop

  /** The register after one more byte, with the table. */
  function TableByte(table: seq<nat>, crc: nat, b: byte): nat
    requires |table| == 256
  {
    Xor(crc / 256, table[Xor(crc, b) % 256])
  }

  /** With the right table a byte step is the eight message bits entered one by one. */
  lemma TableByteIsSerial(table: seq<nat>, crc: nat, b: byte)
    requires |table| == 256 && forall i :: 0 <= i < 256 ==> table[i] == TableEntry(i)
    ensures TableByte(table, crc, b) == BitSerial(POLY, crc, BitsOf(b, 8))
  {
    hide Xor, Bits, BitSerial, BitsOf;
    var x := Xor(crc, b);
    Pow2Eight();
    XorLow(crc, b);
    SerialBits(POLY, crc, b, 8);
    TableStep(POLY, x / 256, x % 256, 8);
  }

  lemma Pow2Eight()
    ensures Pow2(8) == 256
  {}

  function Shr(x: nat, k: nat): nat
    decreases k
  {
    if k == 0 then x else Shr(x / 2, k - 1)
  }

  lemma {:induction false} ShrXor(a: nat, b: nat, k: nat)
    ensures Shr(Xor(a, b), k) == Xor(Shr(a, k), Shr(b, k))
    decreases k
  {
    if k > 0 {
      XorHalves(a, b);
      ShrXor(a / 2, b / 2, k - 1);
    }
  }

  lemma ShrEight(x: nat)
    ensures Shr(x, 8) == x / 256
  {
    assert Shr(x, 8) == Shr(x / 4, 6) == Shr(x / 16, 4) == Shr(x / 64, 2) == x / 256;
  }

  // Xoring a byte in leaves the bits above it alone.
  lemma XorLow(crc: nat, b: byte)
    ensures Xor(crc, b) / 256 == crc / 256
  {
    hide Xor, Shr;
    ShrXor(crc, b, 8);
    ShrEight(crc);
    ShrEight(b);
    ShrEight(Xor(crc, b));
    XorZero(crc / 256);
  }

  // ---------------------------------------------------------------- errors it cannot miss

  /** A reflected polynomial of degree w: its top bit is set. */
  predicate Degree(p: nat, w: nat) {
    w > 0 && Pow2(w - 1) <= p < Pow2(w)
  }

  lemma ClockBound(p: nat, x: nat, b: bool, w: nat)
    requires Degree(p, w) && x < Pow2(w)
    ensures Clock(p, x, b) < Pow2(w)
  {
    hide Xor;
    XorBound(x / 2, p, w);
  }

  lemma {:induction false} SerialBound(p: nat, x: nat, s: seq<bool>, w: nat)
    requires Degree(p, w) && x < Pow2(w)
    ensures BitSerial(p, x, s) < Pow2(w)
    decreases |s|
  {
    if s != [] {
      ClockBound(p, x, s[0], w);
      SerialBound(p, Clock(p, x, s[0]), s[1..], w);
    }
  }

  /** The difference of two registers is itself a register, fed with the difference of the bits. */
  lemma ClockDiff(p: nat, x: nat, y: nat, b: bool, c: bool)
    ensures Xor(Clock(p, x, b), Clock(p, y, c)) == Clock(p, Xor(x, y), b != c)
  {
    hide Clock;
    var m, n := if b then 1 else 0, if c then 1 else 0;
    ClockIsBit(p, x, m);
    ClockIsBit(p, y, n);
    ClockIsBit(p, Xor(x, y), Xor(m, n));
    BitLinear(p, Xor(x, m), Xor(y, n));
    XorSwap(x, m, y, n);
  }

  lemma XorEqual(x: nat, y: nat)
    ensures Xor(x, y) == 0 <==> x == y
  {
    XorSelf(x);
    XorAssoc(x, x, y);
    XorZero(x);
    XorZero(y);
  }

  // A step that leaves the top bit clear was a plain shift.
  lemma ClockLow(p: nat, d: nat, b: bool, w: nat)
    requires Degree(p, w) && d < Pow2(w) && Clock(p, d, b) < Pow2(w - 1)
    ensures Clock(p, d, b) == d / 2 && (d % 2 == 1) == b
  {
    hide Xor;
    if (d % 2 == 1) != b {
      XorHigh(d / 2, p, w - 1);
    }
  }

  /** n < w bits can only make two registers equal that differed in their low n bits alone. */
  lemma {:induction false} LateBitsCancel(p: nat, x: nat, y: nat, s: seq<bool>, t: seq<bool>, w: nat)
    requires Degree(p, w) && x < Pow2(w) && y < Pow2(w)
    requires |s| == |t| < w && BitSerial(p, x, s) == BitSerial(p, y, t)
    ensures Xor(x, y) < Pow2(|s|)
    decreases |s|
  {
    hide Xor, Clock;
    XorEqual(x, y);
    if s != [] {
      var n := |s|;
      ClockBound(p, x, s[0], w);
      ClockBound(p, y, t[0], w);
      LateBitsCancel(p, Clock(p, x, s[0]), Clock(p, y, t[0]), s[1..], t[1..], w);
      ClockDiff(p, x, y, s[0], t[0]);
      XorBound(x, y, w);
      Pow2Grows(n - 1, w - 1);
      ClockLow(p, Xor(x, y), s[0] != t[0], w);
    }
  }

  /** Different registers stay different under the same bits: each step is a bijection. */
  lemma {:induction false} SameBitsKeepApart(p: nat, x: nat, y: nat, s: seq<bool>, w: nat)
    requires Degree(p, w) && x < Pow2(w) && y < Pow2(w)
    ensures BitSerial(p, x, s) == BitSerial(p, y, s) <==> x == y
    decreases |s|
  {
    if s != [] {
      hide Xor, Clock;
      var a, b := Clock(p, x, s[0]), Clock(p, y, s[0]);
      ClockBound(p, x, s[0], w);
      ClockBound(p, y, s[0], w);
      SameBitsKeepApart(p, a, b, s[1..], w);
      ClockDiff(p, x, y, s[0], s[0]);
      XorBound(x, y, w);
      XorEqual(x, y);
      XorEqual(a, b);
      if a == b {
        ClockLow(p, Xor(x, y), false, w);
      }
    }
  }

  /** Two different runs of at most w bits never leave the same register. */
  lemma {:induction false} BurstsDiffer(p: nat, x: nat, s: seq<bool>, t: seq<bool>, w: nat)
    requires Degree(p, w) && x < Pow2(w)
    requires |s| == |t| <= w && s != t
    ensures BitSerial(p, x, s) != BitSerial(p, x, t)
    decreases |s|
  {
    hide Xor, Clock;
    var a, b := Clock(p, x, s[0]), Clock(p, x, t[0]);
    ClockBound(p, x, s[0], w);
    ClockBound(p, x, t[0], w);
    if s[0] == t[0] {
      assert s == [s[0]] + s[1..] && t == [t[0]] + t[1..];
      BurstsDiffer(p, a, s[1..], t[1..], w);
    } else if BitSerial(p, a, s[1..]) == BitSerial(p, b, t[1..]) {
      LateBitsCancel(p, a, b, s[1..], t[1..], w);
      ClockDiff(p, x, x, s[0], t[0]);
      XorSelf(x);
      FromZero(p);
      Pow2Grows(|s| - 1, w - 1);
      assert false;
    }
  }

  lemma FromZero(p: nat)
    ensures Clock(p, 0, true) == p
  {}

  lemma {:induction false} MessageConcat(u: seq<byte>, v: seq<byte>)
    ensures Message(u + v) == Message(u) + Message(v)
  {
    if u == [] {
      assert u + v == v;
    } else {
      hide BitsOf;
      assert (u + v)[1..] == u[1..] + v;
      MessageConcat(u[1..], v);
    }
  }

  lemma {:induction false} BitsOfInjective(a: nat, b: nat, k: nat)
    requires a < Pow2(k) && b < Pow2(k) && BitsOf(a, k) == BitsOf(b, k)
    ensures a == b
    decreases k
  {
    if k > 0 {
      assert BitsOf(a, k)[0] == BitsOf(b, k)[0];
      assert BitsOf(a, k)[1..] == BitsOf(a / 2, k - 1) && BitsOf(b, k)[1..] == BitsOf(b / 2, k - 1);
      BitsOfInjective(a / 2, b / 2, k - 1);
    }
  }

  lemma {:induction false} MessageInjective(s: seq<byte>, t: seq<byte>)
    requires |s| == |t| && Message(s) == Message(t)
    ensures s == t
  {
    if s != [] {
      hide BitsOf;
      Pow2Eight();
      assert Message(s)[..8] == BitsOf(s[0], 8) && Message(t)[..8] == BitsOf(t[0], 8);
      assert Message(s)[8..] == Message(s[1..]) && Message(t)[8..] == Message(t[1..]);
      BitsOfInjective(s[0], t[0], 8);
      MessageInjective(s[1..], t[1..]);
      assert s == [s[0]] + s[1..] && t == [t[0]] + t[1..];
    }
  }

  lemma PolyDegree()
    ensures Degree(POLY, 32) && ONES < Pow2(32) == 0x1_0000_0000
  {
    assert Pow2(8) == 256 && Pow2(16) == 65536 && Pow2(24) == 0x100_0000;
    assert Pow2(31) == 0x8000_0000;
  }

  /** The checksum fits the 32 bits it is declared with. */
  lemma ReferenceIsWord(data: seq<byte>)
    ensures Reference(data) < 0x1_0000_0000
  {
    hide Xor, BitSerial, Message, Pow2;
    PolyDegree();
    SerialBound(POLY, ONES, Message(data), 32);
    XorBound(BitSerial(POLY, ONES, Message(data)), ONES, 32);
  }

  /** Messages that differ only within 32 consecutive bits have different checksums. */
  lemma BitBurstDetected(x: seq<bool>, s: seq<bool>, t: seq<bool>, y: seq<bool>)
    requires |s| == |t| <= 32 && s != t
    ensures BitSerial(POLY, ONES, x + s + y) != BitSerial(POLY, ONES, x + t + y)
  {
    hide Xor, Clock, Pow2, BitSerial;
    PolyDegree();
    var r := BitSerial(POLY, ONES, x);
    SerialConcat(POLY, ONES, x, s);
    SerialConcat(POLY, ONES, x, t);
    SerialConcat(POLY, ONES, x + s, y);
    SerialConcat(POLY, ONES, x + t, y);
    SerialBound(POLY, ONES, x, 32);
    SerialBound(POLY, r, s, 32);
    SerialBound(POLY, r, t, 32);
    BurstsDiffer(POLY, r, s, t, 32);
    SameBitsKeepApart(POLY, BitSerial(POLY, r, s), BitSerial(POLY, r, t), y, 32);
  }

  /** Any change confined to four consecutive bytes changes the checksum, and nothing else is needed. */
  lemma ByteBurstDetected(x: seq<byte>, s: seq<byte>, t: seq<byte>, y: seq<byte>)
    requires |s| == |t| <= 4
    ensures Reference(x + s + y) == Reference(x + t + y) <==> s == t
  {
    hide Xor, BitSerial, Message;
    MessageConcat(x, s);
    MessageConcat(x, t);
    MessageConcat(x + s, y);
    MessageConcat(x + t, y);
    if s != t {
      if Message(s) == Message(t) {
        MessageInjective(s, t);
      }
      BitBurstDetected(Message(x), Message(s), Message(t), Message(y));
      UndoOnes(BitSerial(POLY, ONES, Message(x + s + y)), BitSerial(POLY, ONES, Message(x + t + y)));
    }
  }

  lemma UndoOnes(a: nat, b: nat)
    requires a != b
    ensures Xor(a, ONES) != Xor(b, ONES)
  {
    hide Xor;
    XorThird(a, b, ONES);
    XorEqual(a, b);
    XorSelf(Xor(a, ONES));
  }

  // ---------------------------------------------------------------- known values

  const PolyWord: Word := Word(HE, HD, HB, H8, H8, H3, H2, H0)

  // The register after so many division steps from all ones.
  const After0: Word := Word(HF, HF, HF, HF, HF, HF, HF, HF)
  const After4: Word := Word(HB, H2, H4, H2, H0, HD, HE, H3)
  const After8: Word := Word(H2, HD, HF, HD, H1, H0, H7, H2)
  const After12: Word := Word(H3, H9, HB, H1, HF, H1, HC, HF)
  const After16: Word := Word(HB, HE, H2, H6, HE, HD, H0, H0)
  const After20: Word := Word(H0, HB, HE, H2, H6, HE, HD, H0)
  const After24: Word := Word(H0, H0, HB, HE, H2, H6, HE, HD)
  const After28: Word := Word(H8, H6, HD, H8, H3, H0, HB, HA)
  const After32: Word := Word(HD, HE, HB, HB, H2, H0, HE, H3)

  /** One division step of the register, digit by digit. */
  function WordBit(w: Word): Word {
    if w.h.s then WordXor(WordHalf(w), PolyWord) else WordHalf(w)
  }

  lemma PolyValue()
    ensures Value(PolyWord) == POLY
  {
    hide Behind;
    DigitValues(0x0);
    DigitValues(0xE);
    DigitValues(0xED);
    DigitValues(0xEDB);
    DigitValues(0xEDB8);
    DigitValues(0xEDB88);
    DigitValues(0xEDB883);
    DigitValues(0xEDB8832);
  }

  lemma OnesValue()
    ensures Value(After0) == 0xFFFFFFFF
  {
    hide Behind;
    DigitValues(0x0);
    DigitValues(0xF);
    DigitValues(0xFF);
    DigitValues(0xFFF);
    DigitValues(0xFFFF);
    DigitValues(0xFFFFF);
    DigitValues(0xFFFFFF);
    DigitValues(0xFFFFFFF);
  }

  lemma EightValue()
    ensures Value(After8) == 0x2DFD1072
  {
    hide Behind;
    DigitValues(0x0);
    DigitValues(0x2);
    DigitValues(0x2D);
    DigitValues(0x2DF);
    DigitValues(0x2DFD);
    DigitValues(0x2DFD1);
    DigitValues(0x2DFD10);
    DigitValues(0x2DFD107);
  }

  lemma LastValue()
    ensures Value(After32) == 0xDEBB20E3
  {
    hide Behind;
    DigitValues(0x0);
    DigitValues(0xD);
    DigitValues(0xDE);
    DigitValues(0xDEB);
    DigitValues(0xDEBB);
    DigitValues(0xDEBB2);
    DigitValues(0xDEBB20);
    DigitValues(0xDEBB20E);
  }

  lemma WordBitIs(w: Word)
    ensures Bit(POLY, Value(w)) == Value(WordBit(w))
  {
    hide Xor, WordXor, WordHalf, Value;
    PolyValue();
    WordHalfIs(w);
    WordXorIs(WordHalf(w), PolyWord);
  }

  // Four division steps, by name of the words between them.
  lemma FourSteps(a: Word, b: Word, c: Word, d: Word, e: Word)
    requires b == WordBit(a) && c == WordBit(b) && d == WordBit(c) && e == WordBit(d)
    ensures Bits(POLY, Value(a), 4) == Value(e)
  {
    hide Bit, Bits, WordBit, Value;
    WordBitIs(a);
    WordBitIs(b);
    WordBitIs(c);
    WordBitIs(d);
    BitsUnfold(POLY, Value(a), 4);
    BitsUnfold(POLY, Value(b), 3);
    BitsUnfold(POLY, Value(c), 2);
    BitsUnfold(POLY, Value(d), 1);
    BitsUnfold(POLY, Value(e), 0);
  }

  lemma Steps0To4()
    ensures Bits(POLY, Value(After0), 4) == Value(After4)
  {
    hide Bits, Value;
    var b := Word(H9, H2, H4, H7, H7, HC, HD, HF);
    var c := Word(HA, H4, H9, HB, H3, HD, H4, HF);
    var d := Word(HB, HF, HF, H5, H1, HD, H8, H7);
    assert b == WordBit(After0) && c == WordBit(b) && d == WordBit(c) && After4 == WordBit(d);
    FourSteps(After0, b, c, d, After4);
  }

  lemma Steps4To8()
    ensures Bits(POLY, Value(After4), 4) == Value(After8)
  {
    hide Bits, Value;
    var b := Word(HB, H4, H9, H9, H8, H5, HD, H1);
    var c := Word(HB, H7, HF, H4, H4, H1, HC, H8);
    var d := Word(H5, HB, HF, HA, H2, H0, HE, H4);
    assert b == WordBit(After4) && c == WordBit(b) && d == WordBit(c) && After8 == WordBit(d);
    FourSteps(After4, b, c, d, After8);
  }

  lemma Steps8To12()
    ensures Bits(POLY, Value(After8), 4) == Value(After12)
  {
    hide Bits, Value;
    var b := Word(H1, H6, HF, HE, H8, H8, H3, H9);
    var c := Word(HE, H6, HC, H7, HC, H7, H3, HC);
    var d := Word(H7, H3, H6, H3, HE, H3, H9, HE);
    assert b == WordBit(After8) && c == WordBit(b) && d == WordBit(c) && After12 == WordBit(d);
    FourSteps(After8, b, c, d, After12);
  }

  lemma Steps12To16()
    ensures Bits(POLY, Value(After12), 4) == Value(After16)
  {
    hide Bits, Value;
    var b := Word(HF, H1, H6, H0, H7, HB, HC, H7);
    var c := Word(H9, H5, H0, H8, HB, HE, HC, H3);
    var d := Word(HA, H7, H3, HC, HD, HC, H4, H1);
    assert b == WordBit(After12) && c == WordBit(b) && d == WordBit(c) && After16 == WordBit(d);
    FourSteps(After12, b, c, d, After16);
  }

  lemma Steps16To20()
    ensures Bits(POLY, Value(After16), 4) == Value(After20)
  {
    hide Bits, Value;
    var b := Word(H5, HF, H1, H3, H7, H6, H8, H0);
    var c := Word(H2, HF, H8, H9, HB, HB, H4, H0);
    var d := Word(H1, H7, HC, H4, HD, HD, HA, H0);
    assert b == WordBit(After16) && c == WordBit(b) && d == WordBit(c) && After20 == WordBit(d);
    FourSteps(After16, b, c, d, After20);
  }

  lemma Steps20To24()
    ensures Bits(POLY, Value(After20), 4) == Value(After24)
  {
    hide Bits, Value;
    var b := Word(H0, H5, HF, H1, H3, H7, H6, H8);
    var c := Word(H0, H2, HF, H8, H9, HB, HB, H4);
    var d := Word(H0, H1, H7, HC, H4, HD, HD, HA);
    assert b == WordBit(After20) && c == WordBit(b) && d == WordBit(c) && After24 == WordBit(d);
    FourSteps(After20, b, c, d, After24);
  }

  lemma Steps24To28()
    ensures Bits(POLY, Value(After24), 4) == Value(After28)
  {
    hide Bits, Value;
    var b := Word(HE, HD, HE, H7, H9, H0, H5, H6);
    var c := Word(H7, H6, HF, H3, HC, H8, H2, HB);
    var d := Word(HD, H6, HC, H1, H6, H7, H3, H5);
    assert b == WordBit(After24) && c == WordBit(b) && d == WordBit(c) && After28 == WordBit(d);
    FourSteps(After24, b, c, d, After28);
  }

  lemma Steps28To32()
    ensures Bits(POLY, Value(After28), 4) == Value(After32)
  {
    hide Bits, Value;
    var b := Word(H4, H3, H6, HC, H1, H8, H5, HD);
    var c := Word(HC, HC, H0, HE, H8, HF, H0, HE);
    var d := Word(H6, H6, H0, H7, H4, H7, H8, H7);
    assert b == WordBit(After28) && c == WordBit(b) && d == WordBit(c) && After32 == WordBit(d);
    FourSteps(After28, b, c, d, After32);
  }

  lemma {:induction false} BitsSum(p: nat, x: nat, i: nat, j: nat)
    ensures Bits(p, x, i + j) == Bits(p, Bits(p, x, i), j)
    decreases i
  {
    hide Bit;
    if i > 0 {
      BitsSum(p, Bit(p, x), i - 1, j);
    }
  }

  lemma OnesSteps()
    ensures Bits(POLY, 0xFFFFFFFF, 8) == 0x2DFD1072 && Bits(POLY, 0xFFFFFFFF, 32) == 0xDEBB20E3
  {
    hide *;
    OnesValue();
    EightValue();
    LastValue();
    Steps0To4();
    Steps4To8();
    Steps8To12();
    Steps12To16();
    Steps16To20();
    Steps20To24();
    Steps24To28();
    Steps28To32();
    BitsSum(POLY, 0xFFFFFFFF, 4, 4);
    BitsSum(POLY, 0xFFFFFFFF, 8, 4);
    BitsSum(POLY, 0xFFFFFFFF, 12, 4);
    BitsSum(POLY, 0xFFFFFFFF, 16, 4);
    BitsSum(POLY, 0xFFFFFFFF, 20, 4);
    BitsSum(POLY, 0xFFFFFFFF, 24, 4);
    BitsSum(POLY, 0xFFFFFFFF, 28, 4);
  }

  // Two known words and their xor with all ones.
  lemma WordsInverted()
    ensures Xor(0x2DFD1072, 0xFFFFFFFF) == 0xD202EF8D && Xor(0xDEBB20E3, 0xFFFFFFFF) == 0x2144DF1C
  {
    var v, w := Word(HD, H2, H0, H2, HE, HF, H8, HD), Word(H2, H1, H4, H4, HD, HF, H1, HC);
    assert v == WordXor(After8, After0) && w == WordXor(After32, After0);
    hide *;
    OnesValue();
    EightValue();
    LastValue();
    FirstInverted();
    SecondInverted();
    WordXorIs(After8, After0);
    WordXorIs(After32, After0);
  }

  lemma FirstInverted()
    ensures Value(Word(HD, H2, H0, H2, HE, HF, H8, HD)) == 0xD202EF8D
  {
    hide Behind;
    DigitValues(0x0);
    DigitValues(0xD);
    DigitValues(0xD2);
    DigitValues(0xD20);
    DigitValues(0xD202);
    DigitValues(0xD202E);
    DigitValues(0xD202EF);
    DigitValues(0xD202EF8);
  }

  lemma SecondInverted()
    ensures Value(Word(H2, H1, H4, H4, HD, HF, H1, HC)) == 0x2144DF1C
  {
    hide Behind;
    DigitValues(0x0);
    DigitValues(0x2);
    DigitValues(0x21);
    DigitValues(0x214);
    DigitValues(0x2144);
    DigitValues(0x2144D);
    DigitValues(0x2144DF);
    DigitValues(0x2144DF1);
  }

  lemma SerialOfNothing(p: nat, crc: nat)
    ensures BitSerial(p, crc, Message([])) == crc
  {}

  // One byte enters the register as its eight bits.
  lemma SerialOfByte(p: nat, crc: nat, b: byte)
    ensures BitSerial(p, crc, Message([b])) == BitSerial(p, crc, BitsOf(b, 8))
  {
    hide BitsOf, BitSerial;
    assert [b][1..] == [] && BitsOf(b, 8) + [] == BitsOf(b, 8);
  }

  /** The checksum of nothing is zero, and that of one zero byte the known value. */
  lemma KnownValues()
    ensures Reference([]) == 0 && Reference([0]) == 0xD202EF8D
  {
    hide Xor, Bits, BitsOf, BitSerial, Message;
    XorSelf(0xFFFFFFFF);
    SerialOfNothing(POLY, 0xFFFFFFFF);
    SerialOfByte(POLY, 0xFFFFFFFF, 0);
    Pow2Eight();
    SerialBits(POLY, 0xFFFFFFFF, 0, 8);
    XorZero(0xFFFFFFFF);
    OnesSteps();
    WordsInverted();
  }

  // The bytes of a number, least significant first, enter the register as its bits do.
  lemma {:induction false} BitsOfBytes(v: nat, k: nat)
    ensures Message(ToLE(v, k)) == BitsOf(v, 8 * k)
    decreases k
  {
    if k == 0 {
      assert ToLE(v, 0) == [];
    } else {
      BitsOfBytes(v / 256, k - 1);
      BitsOfSplit(v, 8, 8 * (k - 1));
      BitsOfLow(v);
      hide BitsOf;
      assert ToLE(v, k)[0] == v % 256 && ToLE(v, k)[1..] == ToLE(v / 256, k - 1);
      assert Message(ToLE(v, k)) == BitsOf(v % 256, 8) + Message(ToLE(v / 256, k - 1));
    }
  }

  lemma {:induction false} BitsOfSplit(v: nat, i: nat, j: nat)
    ensures BitsOf(v, i + j) == BitsOf(v, i) + BitsOf(Shr(v, i), j)
    decreases i
  {
    if i > 0 {
      BitsOfSplit(v / 2, i - 1, j);
    } else {
      assert [] + BitsOf(v, j) == BitsOf(v, j);
    }
  }

  // Eight bits of a number are those of its lowest byte.
  lemma BitsOfLow(v: nat)
    ensures BitsOf(v, 8) == BitsOf(v % 256, 8) && Shr(v, 8) == v / 256
  {
    hide BitsOf, Shr, Pow2;
    ShrEight(v);
    Pow2Eight();
    BitsOfMore(v % 256, v / 256, 8);
  }

  // Multiples of 2^k do not show in the low k bits.
  lemma {:induction false} BitsOfMore(w: nat, q: nat, k: nat)
    ensures BitsOf(w + q * Pow2(k), k) == BitsOf(w, k)
    decreases k
  {
    if k > 0 {
      var v, m := w + q * Pow2(k), q * Pow2(k - 1);
      assert v == w + 2 * m;
      assert v / 2 == w / 2 + m && v % 2 == w % 2;
      BitsOfMore(w / 2, q, k - 1);
    }
  }

  /**
    Appended to the message, least significant byte first, the checksum leaves a residue that is
    the same for every message.
   */
  lemma Residue(data: seq<byte>)
    ensures Reference(data + ToLE(Reference(data), 4)) == 0x2144DF1C
  {
    hide Xor, Bits, BitsOf, BitSerial, Message;
    var r := BitSerial(POLY, 0xFFFFFFFF, Message(data));
    var crc := Reference(data);
    ReferenceIsWord(data);
    MessageConcat(data, ToLE(crc, 4));
    BitsOfBytes(crc, 4);
    SerialConcat(POLY, 0xFFFFFFFF, Message(data), BitsOf(crc, 32));
    PolyDegree();
    SerialBits(POLY, r, crc, 32);
    XorAssoc(r, r, 0xFFFFFFFF);
    XorSelf(r);
    XorZero(0xFFFFFFFF);
    OnesSteps();
    WordsInverted();
  }

  // ---------------------------------------------------------------- the source's loops

  lemma BitsUnfold(p: nat, x: nat, k: nat)
    ensures Bits(p, x, 0) == x && (k > 0 ==> Bits(p, x, k) == Bits(p, Bit(p, x), k - 1))
  {
    hide Bit;
  }

  function TableEntry(i: nat): nat {
    Bits(POLY, i, 8)
  }

  /** The source's inner loop: eight division steps. */
  method BuildEntry(i: nat) returns (crc: nat)
    ensures crc == TableEntry(i)
  {
    hide Xor, Bits;
    crc := i;
    var j: nat := 0;
    while j < 8
      invariant 0 <= j <= 8 && Bits(POLY, crc, 8 - j) == Bits(POLY, i, 8)
    {
      BitsUnfold(POLY, crc, 8 - j);
      var next: nat := if crc % 2 == 1 then Xor(crc / 2, POLY) else crc / 2;
      assert next == Bit(POLY, crc);
      crc := next;
      j := j + 1;
    }
    BitsUnfold(POLY, crc, 0);
  }

  method BuildTable() returns (table: array<nat>)
    ensures fresh(table) && table.Length == 256
    ensures forall i :: 0 <= i < 256 ==> table[i] == TableEntry(i)
  {
    hide TableEntry;
    table := new nat[256];
    var i: nat := 0;
    while i < 256
      invariant 0 <= i <= 256
      invariant forall k :: 0 <= k < i ==> table[k] == TableEntry(k)
    {
      table[i] := BuildEntry(i);
      i := i + 1;
    }
  }

  /** The checksum of any byte string is the reference CRC, and a 32-bit number. */
  method CalculateCRC32(data: seq<byte>) returns (crc: nat)
    ensures crc == Reference(data) < 0x1_0000_0000
  {
    var table := BuildTable();
    ghost var entries := table[..];
    crc := ONES;
    var i := 0;
    assert data[0..] == data;
    while i < |data|
      invariant 0 <= i <= |data| && table[..] == entries
      invariant BitSerial(POLY, crc, Message(data[i..])) == BitSerial(POLY, ONES, Message(data))
    {
      hide Xor, Bits;
      TableByteIsSerial(entries, crc, data[i]);
      SerialConcat(POLY, crc, BitsOf(data[i], 8), Message(data[i..][1..]));
      assert data[i..][0] == data[i] && data[i..][1..] == data[i + 1..];
      var next: nat := Xor(crc / 256, table[Xor(crc, data[i]) % 256]);
      crc := next;
      i := i + 1;
    }
    crc := Xor(crc, ONES);
    ReferenceIsWord(data);
  }
}

/** Numbers of 32 bits as eight hexadecimal digits, for the few values that are worked out. */
module Digits {
  import opened Bitwise

  /** A hexadecimal digit by its bits, the highest first. */
  datatype Digit = Digit(p: bool, q: bool, r: bool, s: bool)

  const H0: Digit := Digit(false, false, false, false)
  const H1: Digit := Digit(false, false, false, true)
  const H2: Digit := Digit(false, false, true, false)
  const H3: Digit := Digit(false, false, true, true)
  const H4: Digit := Digit(false, true, false, false)
  const H5: Digit := Digit(false, true, false, true)
  const H6: Digit := Digit(false, true, true, false)
  const H7: Digit := Digit(false, true, true, true)
  const H8: Digit := Digit(true, false, false, false)
  const H9: Digit := Digit(true, false, false, true)
  const HA: Digit := Digit(true, false, true, false)
  const HB: Digit := Digit(true, false, true, true)
  const HC: Digit := Digit(true, true, false, false)
  const HD: Digit := Digit(true, true, false, true)
  const HE: Digit := Digit(true, true, true, false)
  const HF: Digit := Digit(true, true, true, true)

  function One(b: bool): nat {
    if b then 1 else 0
  }

  // A number with one more bit behind it.
  function Push(n: nat, b: bool): nat {
    2 * n + One(b)
  }

  lemma PushHalf(n: nat, b: bool)
    ensures Push(n, b) / 2 == n && Push(n, b) % 2 == One(b)
  {}

  lemma XorPush(a: nat, b: nat, x: bool, y: bool)
    ensures Xor(Push(a, x), Push(b, y)) == Push(Xor(a, b), x != y)
  {
    hide *;
    PushHalf(a, x);
    PushHalf(b, y);
    PushHalf(Xor(a, b), x != y);
    XorHalves(Push(a, x), Push(b, y));
    PushParity(a, b, x, y);
    Halves(Xor(Push(a, x), Push(b, y)), Push(Xor(a, b), x != y));
  }

  lemma PushParity(a: nat, b: nat, x: bool, y: bool)
    ensures (Push(a, x) + Push(b, y)) % 2 == One(x != y)
  {}

  // A number with one more hexadecimal digit behind it.
  function Behind(n: nat, x: Digit): nat {
    Push(Push(Push(Push(n, x.p), x.q), x.r), x.s)
  }

  function DigitXor(x: Digit, y: Digit): Digit {
    Digit(x.p != y.p, x.q != y.q, x.r != y.r, x.s != y.s)
  }

  lemma BehindXor(a: nat, b: nat, x: Digit, y: Digit)
    ensures Xor(Behind(a, x), Behind(b, y)) == Behind(Xor(a, b), DigitXor(x, y))
  {
    hide Xor, Push;
    var a1, b1 := Push(a, x.p), Push(b, y.p);
    var a2, b2 := Push(a1, x.q), Push(b1, y.q);
    XorPush(a, b, x.p, y.p);
    XorPush(a1, b1, x.q, y.q);
    XorPush(a2, b2, x.r, y.r);
    XorPush(Push(a2, x.r), Push(b2, y.r), x.s, y.s);
  }

  lemma DigitValues(n: nat)
    ensures Behind(n, H0) == 16 * n && Behind(n, H1) == 16 * n + 1 && Behind(n, H2) == 16 * n + 2
    ensures Behind(n, H3) == 16 * n + 3 && Behind(n, H4) == 16 * n + 4 && Behind(n, H5) == 16 * n + 5
    ensures Behind(n, H6) == 16 * n + 6 && Behind(n, H7) == 16 * n + 7 && Behind(n, H8) == 16 * n + 8
    ensures Behind(n, H9) == 16 * n + 9 && Behind(n, HA) == 16 * n + 10 && Behind(n, HB) == 16 * n + 11
    ensures Behind(n, HC) == 16 * n + 12 && Behind(n, HD) == 16 * n + 13 && Behind(n, HE) == 16 * n + 14
    ensures Behind(n, HF) == 16 * n + 15
  {}

  /** Eight hexadecimal digits, the highest first. */
  datatype Word = Word(a: Digit, b: Digit, c: Digit, d: Digit, e: Digit, f: Digit, g: Digit, h: Digit)

  function Value(w: Word): nat {
    Behind(Behind(Behind(Behind(Behind(Behind(Behind(Behind(0, w.a), w.b), w.c), w.d), w.e), w.f), w.g), w.h)
  }

  function WordXor(v: Word, w: Word): Word {
    Word(DigitXor(v.a, w.a), DigitXor(v.b, w.b), DigitXor(v.c, w.c), DigitXor(v.d, w.d),
         DigitXor(v.e, w.e), DigitXor(v.f, w.f), DigitXor(v.g, w.g), DigitXor(v.h, w.h))
  }

  // A digit halved, behind one whose last bit is b.
  function DigitHalf(b: bool, x: Digit): Digit {
    Digit(b, x.p, x.q, x.r)
  }

  function WordHalf(w: Word): Word {
    Word(DigitHalf(false, w.a), DigitHalf(w.a.s, w.b), DigitHalf(w.b.s, w.c), DigitHalf(w.c.s, w.d),
         DigitHalf(w.d.s, w.e), DigitHalf(w.e.s, w.f), DigitHalf(w.f.s, w.g), DigitHalf(w.g.s, w.h))
  }

  lemma WordXorIs(v: Word, w: Word)
    ensures Xor(Value(v), Value(w)) == Value(WordXor(v, w))
  {
    XorZero(0);
    hide Xor, DigitXor, Behind;
    var p1, q1 := Behind(0, v.a), Behind(0, w.a);
    var p2, q2 := Behind(p1, v.b), Behind(q1, w.b);
    var p3, q3 := Behind(p2, v.c), Behind(q2, w.c);
    var p4, q4 := Behind(p3, v.d), Behind(q3, w.d);
    var p5, q5 := Behind(p4, v.e), Behind(q4, w.e);
    var p6, q6 := Behind(p5, v.f), Behind(q5, w.f);
    var p7, q7 := Behind(p6, v.g), Behind(q6, w.g);
    BehindXor(0, 0, v.a, w.a);
    BehindXor(p1, q1, v.b, w.b);
    BehindXor(p2, q2, v.c, w.c);
    BehindXor(p3, q3, v.d, w.d);
    BehindXor(p4, q4, v.e, w.e);
    BehindXor(p5, q5, v.f, w.f);
    BehindXor(p6, q6, v.g, w.g);
    BehindXor(p7, q7, v.h, w.h);
  }

  // The half of a number with one more digit, given that of the number.
  lemma BehindHalf(n: nat, x: Digit, y: Digit)
    ensures Behind(Behind(n, x), y) / 2 == Behind(Behind(n, x) / 2, DigitHalf(x.s, y))
    ensures Behind(n, y) % 2 == One(y.s)
  {
    hide Push;
    var m := Behind(n, x);
    var v := Push(Push(Push(n, x.p), x.q), x.r);
    PushHalf(v, x.s);
    PushHalf(Push(Push(Push(m, y.p), y.q), y.r), y.s);
    PushHalf(Push(Push(Push(n, y.p), y.q), y.r), y.s);
  }

  lemma WordHalfIs(w: Word)
    ensures Value(w) / 2 == Value(WordHalf(w)) && Value(w) % 2 == One(w.h.s)
  {
    BehindFirst(w.a);
    hide Behind, DigitHalf, One;
    var p1 := Behind(0, w.a);
    var p2 := Behind(p1, w.b);
    var p3 := Behind(p2, w.c);
    var p4 := Behind(p3, w.d);
    var p5 := Behind(p4, w.e);
    var p6 := Behind(p5, w.f);
    BehindHalf(0, w.a, w.b);
    BehindHalf(p1, w.b, w.c);
    BehindHalf(p2, w.c, w.d);
    BehindHalf(p3, w.d, w.e);
    BehindHalf(p4, w.e, w.f);
    BehindHalf(p5, w.f, w.g);
    BehindHalf(p6, w.g, w.h);
    BehindHalf(Behind(p6, w.g), w.h, w.h);
  }

  lemma BehindFirst(x: Digit)
    ensures Behind(0, x) / 2 == Behind(0, DigitHalf(false, x))
  {}
}

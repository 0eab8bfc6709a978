/**
 * What the hash computes, in plain arithmetic: the laws of its multiplication, its operators by division and
 * remainder, published values, and keys of different lengths kept apart.
 */
module MurmurValues {
  import opened Bitwise
  import opened Murmur

  // ---- Multiplication ------------------------------------------------------------------------------

  /** The product modulo 2^32: the only operation with these two laws. */
  lemma TimesLaws(x: word, y: word, c: word)
    ensures Times(1, c) == c
    ensures Times(Plus(x, y), c) == Plus(Times(x, c), Times(y, c))
  {
    var p, q, s := x * c / WORD, y * c / WORD, (x + y) / WORD;
    var sum := Times(x, c) + Times(y, c);
    Spread(x, y, s, c);
    assert Plus(x, y) == x + y - s * WORD;
    SameRemainder(Plus(x, y) * c, sum, p + q - s * c);
  }

  lemma Spread(x: int, y: int, s: int, c: int)
    ensures (x + y - s * WORD) * c == x * c + y * c - (s * c) * WORD
  {
  }

  lemma SameRemainder(a: int, b: int, k: int)
    requires a == b + k * WORD
    ensures a % WORD == b % WORD
  {
  }

  // ---- Exclusive or, digit by digit ----------------------------------------------------------------

  type digit = x: int | 0 <= x < 16

  /** A word by its eight hexadecimal digits. */
  datatype Hex = Hex(d7: digit, d6: digit, d5: digit, d4: digit, d3: digit, d2: digit, d1: digit, d0: digit) {
    function Value(): word {
      d0 + 0x10 * d1 + 0x100 * d2 + 0x1000 * d3 + 0x1_0000 * d4 + 0x10_0000 * d5 + 0x100_0000 * d6 + 0x1000_0000 * d7
    }

    function Odd(h: Hex): Hex {
      Hex(OddBits(d7, h.d7), OddBits(d6, h.d6), OddBits(d5, h.d5), OddBits(d4, h.d4),
          OddBits(d3, h.d3), OddBits(d2, h.d2), OddBits(d1, h.d1), OddBits(d0, h.d0))
    }
  }

  /** What is left of x without the bit of weight w. */
  function Without(x: int, w: int): int {
    if x >= w then x - w else x
  }

  function OddBit(x: int, y: int, w: int): int {
    if (x >= w) == (y >= w) then 0 else w
  }

  /** The bits that are set in one of two digits only. */
  function OddBits(x: digit, y: digit): digit {
    var x2, y2 := Without(x, 8), Without(y, 8);
    var x1, y1 := Without(x2, 4), Without(y2, 4);
    OddBit(x, y, 8) + OddBit(x2, y2, 4) + OddBit(x1, y1, 2) + OddBit(Without(x1, 2), Without(y1, 2), 1)
  }

  lemma Doubles(a: nat, b: nat, x: nat, y: nat)
    requires x < 2 && y < 2
    ensures Xor(2 * a + x, 2 * b + y) == 2 * Xor(a, b) + (if x == y then 0 else 1)
  {
  }

  function HasBit(x: int, w: int): nat {
    if x >= w then 1 else 0
  }

  lemma FourBits(a: nat, b: nat, x3: nat, x2: nat, x1: nat, x0: nat, y3: nat, y2: nat, y1: nat, y0: nat)
    requires x3 < 2 && x2 < 2 && x1 < 2 && x0 < 2 && y3 < 2 && y2 < 2 && y1 < 2 && y0 < 2
    ensures Xor(16 * a + 8 * x3 + 4 * x2 + 2 * x1 + x0, 16 * b + 8 * y3 + 4 * y2 + 2 * y1 + y0)
            == 16 * Xor(a, b) + (if x3 == y3 then 0 else 8) + (if x2 == y2 then 0 else 4)
               + (if x1 == y1 then 0 else 2) + (if x0 == y0 then 0 else 1)
  {
    hide *;
    Doubles(a, b, x3, y3);
    Doubles(2 * a + x3, 2 * b + y3, x2, y2);
    Doubles(4 * a + 2 * x3 + x2, 4 * b + 2 * y3 + y2, x1, y1);
    Doubles(8 * a + 4 * x3 + 2 * x2 + x1, 8 * b + 4 * y3 + 2 * y2 + y1, x0, y0);
  }

  lemma DigitBits(x: digit)
    ensures var x2 := Without(x, 8); var x1 := Without(x2, 4);
      x == 8 * HasBit(x, 8) + 4 * HasBit(x2, 4) + 2 * HasBit(x1, 2) + HasBit(Without(x1, 2), 1)
  {
  }

  lemma OneDigit(a: nat, b: nat, x: digit, y: digit)
    ensures Xor(16 * a + x, 16 * b + y) == 16 * Xor(a, b) + OddBits(x, y)
  {
    hide Xor;
    var x2, y2 := Without(x, 8), Without(y, 8);
    var x1, y1 := Without(x2, 4), Without(y2, 4);
    var x0, y0 := Without(x1, 2), Without(y1, 2);
    DigitBits(x);
    DigitBits(y);
    FourBits(a, b, HasBit(x, 8), HasBit(x2, 4), HasBit(x1, 2), HasBit(x0, 1),
             HasBit(y, 8), HasBit(y2, 4), HasBit(y1, 2), HasBit(y0, 1));
  }

  function Above1(h: Hex): nat { 0x10 * Above2(h) + h.d1 }
  function Above2(h: Hex): nat { 0x10 * Above3(h) + h.d2 }
  function Above3(h: Hex): nat { 0x10 * Above4(h) + h.d3 }
  function Above4(h: Hex): nat { 0x10 * Above5(h) + h.d4 }
  function Above5(h: Hex): nat { 0x10 * Above6(h) + h.d5 }
  function Above6(h: Hex): nat { 0x10 * h.d7 + h.d6 }

  lemma Nested(h: Hex)
    ensures h.Value() == 0x10 * Above1(h) + h.d0 && Above1(h) == 0x10 * Above2(h) + h.d1
    ensures Above2(h) == 0x10 * Above3(h) + h.d2 && Above3(h) == 0x10 * Above4(h) + h.d3
    ensures Above4(h) == 0x10 * Above5(h) + h.d4 && Above5(h) == 0x10 * Above6(h) + h.d5
    ensures Above6(h) == 0x10 * h.d7 + h.d6
  {
  }

  lemma OddDigits(a: Hex, b: Hex)
    ensures var c := a.Odd(b);
      && c.d7 == OddBits(a.d7, b.d7) && c.d6 == OddBits(a.d6, b.d6) && c.d5 == OddBits(a.d5, b.d5)
      && c.d4 == OddBits(a.d4, b.d4) && c.d3 == OddBits(a.d3, b.d3) && c.d2 == OddBits(a.d2, b.d2)
      && c.d1 == OddBits(a.d1, b.d1) && c.d0 == OddBits(a.d0, b.d0)
  {
    hide OddBits;
  }

  lemma Xor32Is(a: word, b: word)
    ensures Xor32(a, b) == Xor(a, b)
  {
    hide Xor;
  }

  lemma XorHex(a: Hex, b: Hex)
    ensures Xor32(a.Value(), b.Value()) == a.Odd(b).Value()
  {
    hide *;
    XorOfNothing();
    OneDigit(0, 0, a.d7, b.d7);
    OneDigit(a.d7, b.d7, a.d6, b.d6);
    OneDigit(Above6(a), Above6(b), a.d5, b.d5);
    OneDigit(Above5(a), Above5(b), a.d4, b.d4);
    OneDigit(Above4(a), Above4(b), a.d3, b.d3);
    OneDigit(Above3(a), Above3(b), a.d2, b.d2);
    OneDigit(Above2(a), Above2(b), a.d1, b.d1);
    OneDigit(Above1(a), Above1(b), a.d0, b.d0);
    Nested(a);
    Nested(b);
    Nested(a.Odd(b));
    OddDigits(a, b);
    Xor32Is(a.Value(), b.Value());
  }

  lemma XorOfNothing()
    ensures Xor(0, 0) == 0
  {
  }

  // ---- Rotations and shifts by division ------------------------------------------------------------

  /** What a rotation by r gives, p being 2^r and q 2^(32-r). */
  function Turned(x: word, p: int, q: int): int
    requires p > 0 && q > 0
  {
    x * p % WORD + x / q
  }

  lemma RotlIs(x: word, r: nat)
    requires 0 < r < 32
    ensures Rotl(x, r) == Turned(x, Pow2(r), Pow2(32 - r))
  {
    hide *;
    RotlHalves(x, r);
    UpperHalf(x, r);
    LowerHalf(x, r);
    ShlIsTimes(x % Pow2(32 - r), r);
    FillsLowBits(x % Pow2(32 - r), r, x / Pow2(32 - r));
    TurnedIs(x, Pow2(r), Pow2(32 - r));
  }

  lemma TurnedIs(x: word, p: int, q: int)
    requires p > 0 && q > 0
    ensures Turned(x, p, q) == x * p % WORD + x / q
  {
  }

  lemma RotlHalves(x: word, r: nat)
    requires 0 < r < 32
    ensures Rotl(x, r) == Or(Low(Shl(x, r), 32), Shr(x, 32 - r))
  {
  }

  lemma UpperHalf(x: word, r: nat)
    requires 0 < r < 32
    ensures Low(Shl(x, r), 32) == x * Pow2(r) % WORD == x % Pow2(32 - r) * Pow2(r)
  {
    hide *;
    WordIs32Bits();
    ShlIsTimes(x, r);
    ShiftIsDivision(x * Pow2(r), 32);
    PowersMultiply(r, 32 - r);
    TopPart(x, Pow2(r), Pow2(32 - r));
  }

  lemma LowerHalf(x: word, r: nat)
    requires 0 < r < 32
    ensures Shr(x, 32 - r) == x / Pow2(32 - r) < Pow2(r)
  {
    hide *;
    WordIs32Bits();
    ShiftIsDivision(x, 32 - r);
    PowersMultiply(r, 32 - r);
    QuotientBelow(x, Pow2(r), Pow2(32 - r));
  }

  lemma QuotientBelow(x: nat, p: nat, q: nat)
    requires q > 0 && x < p * q
    ensures x / q < p
  {
    TimesMore(x / q, p, q);
  }

  lemma TimesMore(d: int, p: int, q: int)
    requires q > 0
    ensures d >= p ==> d * q >= p * q
  {
  }

  lemma {:induction false} PowersMultiply(m: nat, n: nat)
    ensures Pow2(m) * Pow2(n) == Pow2(m + n)
  {
    if m > 0 {
      PowersMultiply(m - 1, n);
    }
  }

  /** Of x times p, with p times q the size of a word, only the lower part of x is left. */
  lemma TopPart(x: word, p: nat, q: nat)
    requires p > 0 && q > 0 && p * q == WORD
    ensures x * p % WORD == (x % q) * p
  {
    var d, m := x / q, x % q;
    assert x == d * q + m;
    calc {
      x * p;
      (d * q + m) * p;
      d * (p * q) + m * p;
      d * WORD + m * p;
    }
    assert 0 <= m * p < WORD by {
      assert m * p <= (q - 1) * p;
    }
    DivUnique(x * p, WORD, d, m * p);
  }

  lemma Powers()
    ensures Pow2(13) == 0x2000 && Pow2(15) == 0x8000 && Pow2(16) == 0x1_0000
    ensures Pow2(17) == 0x2_0000 && Pow2(19) == 0x8_0000
  {
    assert Pow2(8) == 0x100;
  }

  lemma Rotations(x: word)
    ensures Rotl(x, 15) == Turned(x, 0x8000, 0x2_0000) && Rotl(x, 13) == Turned(x, 0x2000, 0x8_0000)
  {
    hide Rotl;
    RotlIs(x, 15);
    RotlIs(x, 13);
    Powers();
  }

  /** A word and its upper part, xor-ed. */
  lemma ShiftHex(x: Hex, y: Hex)
    ensures y.Value() == x.Value() / 0x1_0000 ==> XorShift(x.Value(), 16) == x.Odd(y).Value()
    ensures y.Value() == x.Value() / 0x2000 ==> XorShift(x.Value(), 13) == x.Odd(y).Value()
  {
    hide *;
    Powers();
    if y.Value() == x.Value() / 0x1_0000 {
      ShiftIs(x.Value(), 16, y.Value());
    }
    if y.Value() == x.Value() / 0x2000 {
      ShiftIs(x.Value(), 13, y.Value());
    }
    XorHex(x, y);
  }

  lemma ShiftIs(x: word, n: nat, y: word)
    requires y == x / Pow2(n)
    ensures XorShift(x, n) == Xor32(x, y)
  {
    hide Xor32, Shr, Pow2;
    ShiftIsDivision(x, n);
  }

  // ---- The mixing steps in arithmetic --------------------------------------------------------------

  lemma MixBlockIs(k: word, a: word, b: word, m: word)
    requires a == k * 0xcc9e2d51 % WORD && b == Turned(a, 0x8000, 0x2_0000) && m == b * 0x1b873593 % WORD
    ensures MixBlock(k) == m
  {
    hide Rotl, Turned;
    Rotations(a);
  }

  lemma MixInIs(h: word, k: word, x: word, y: word)
    requires x == Xor32(h, MixBlock(k)) && y == Turned(x, 0x2000, 0x8_0000)
    ensures MixIn(h, k) == (y * 5 + 0xe6546b64) % WORD
  {
    hide MixBlock, Xor32, Rotl, Turned;
    Rotations(x);
  }

  lemma FinalSteps(h: word, a: word, b: word, c: word, d: word)
    requires a == XorShift(h, 16) && b == a * 0x85ebca6b % WORD
    requires c == XorShift(b, 13) && d == c * 0xc2b2ae35 % WORD
    ensures Final(h) == XorShift(d, 16)
  {
    hide XorShift;
  }

  lemma FinalIs(h: Hex, hs: Hex, a: Hex, b: Hex, bs: Hex, c: Hex, d: Hex, ds: Hex, e: Hex)
    requires hs.Value() == h.Value() / 0x1_0000 && a == h.Odd(hs) && b.Value() == a.Value() * 0x85ebca6b % WORD
    requires bs.Value() == b.Value() / 0x2000 && c == b.Odd(bs) && d.Value() == c.Value() * 0xc2b2ae35 % WORD
    requires ds.Value() == d.Value() / 0x1_0000 && e == d.Odd(ds)
    ensures Final(h.Value()) == e.Value()
  {
    hide *;
    ShiftHex(h, hs);
    ShiftHex(b, bs);
    ShiftHex(d, ds);
    FinalSteps(h.Value(), a.Value(), b.Value(), c.Value(), d.Value());
  }

  // ---- Published values ----------------------------------------------------------------------------

  lemma WithNothing(m: word)
    ensures Xor32(0, m) == m
  {
  }

  /** The length is below 16 here and meets the last digit. */
  lemma WithLength(a: nat, x: digit, n: digit)
    requires 16 * a + x < WORD
    ensures Xor32(16 * a + x, n) == 16 * a + OddBits(x, n)
  {
    hide Xor, OddBits;
    OneDigit(a, 0, x, n);
    WithZero(a);
  }

  lemma WithZero(a: nat)
    ensures Xor(a, 0) == a
  {
  }

  lemma HashBlocks(key: seq<byte>, seed: word, h: word, f: word, e: word)
    requires |key| < 16 && |key| % 4 == 0 && Body(seed, key, |key| / 4) == h
    requires f == Xor32(h, |key|) && Final(f) == e
    ensures Hash(key, seed) == e
  {
    hide MixBlock, Final, Body, Xor32;
  }

  lemma HashTailed(key: seq<byte>, seed: word, h: word, k: word, m: word, t: word, f: word, e: word)
    requires |key| < 16 && |key| % 4 != 0 && Body(seed, key, |key| / 4) == h
    requires k == Remaining(key) && MixBlock(k) == m && t == Xor32(h, m) && f == Xor32(t, |key|) && Final(f) == e
    ensures Hash(key, seed) == e
  {
    hide MixBlock, Final, Body, Xor32;
  }

  /** The one to three bytes behind the last block. */
  function Remaining(key: seq<byte>): word
    requires |key| % 4 != 0
  {
    var n := |key| - |key| % 4;
    BytesWord(key[n], if n + 1 < |key| then key[n + 1] else 0, if n + 2 < |key| then key[n + 2] else 0, 0)
  }

  lemma NextBlock(key: seq<byte>, seed: word, n: nat, h: word, k: word)
    requires 4 * n + 4 <= |key| && Body(seed, key, n) == h
    requires k == (key[4 * n] as int) + 0x100 * (key[4 * n + 1] as int) + 0x1_0000 * (key[4 * n + 2] as int)
                  + 0x100_0000 * (key[4 * n + 3] as int)
    ensures Body(seed, key, n + 1) == MixIn(h, k)
  {
    hide MixIn;
  }

  lemma NoBlock(key: seq<byte>, seed: word)
    ensures Body(seed, key, 0) == seed
  {
  }

  lemma EmptyKeyFinal()
    ensures Final(1) == 0x514e28b7
  {
    hide Final;
    FinalIs(Hex(0, 0, 0, 0, 0, 0, 0, 1), Hex(0, 0, 0, 0, 0, 0, 0, 0), Hex(0, 0, 0, 0, 0, 0, 0, 1),
            Hex(8, 5, 0xe, 0xb, 0xc, 0xa, 6, 0xb), Hex(0, 0, 0, 4, 2, 0xf, 5, 0xe), Hex(8, 5, 0xe, 0xf, 0xe, 5, 3, 5),
            Hex(5, 1, 4, 0xe, 7, 9, 0xf, 9), Hex(0, 0, 0, 0, 5, 1, 4, 0xe), Hex(5, 1, 4, 0xe, 2, 8, 0xb, 7));
  }

  /** The empty key. */
  lemma EmptyKey()
    ensures Hash([], 1) == 0x514e28b7
  {
    hide Xor32, MixBlock, MixIn, Final, Body, Hash, Times, XorShift;
    var key: seq<byte> := [];
    NoBlock(key, 1);
    EmptyKeyFinal();
    WithLength(0, 1, 0);
    HashBlocks(key, 1, 1, 1, 0x514e28b7);
  }

  lemma OneByteTail()
    ensures MixBlock(1) == 0xc3539a5d && Xor32(0, 0xc3539a5d) == 0xc3539a5d
  {
    hide MixBlock, Xor32;
    MixBlockIs(1, 0xcc9e2d51, 0x16a8e64f, 0xc3539a5d);
    WithNothing(0xc3539a5d);
  }

  lemma OneByteFinal()
    ensures Final(0xc3539a5c) == 0xe45ad1ab
  {
    hide Final;
    FinalIs(Hex(0xc, 3, 5, 3, 9, 0xa, 5, 0xc), Hex(0, 0, 0, 0, 0xc, 3, 5, 3), Hex(0xc, 3, 5, 3, 5, 9, 0, 0xf),
            Hex(0xf, 3, 0xe, 1, 0, 0xf, 4, 5), Hex(0, 0, 0, 7, 9, 0xf, 0, 8), Hex(0xf, 3, 0xe, 6, 9, 0, 4, 0xd),
            Hex(0xe, 4, 5, 0xa, 3, 5, 0xf, 1), Hex(0, 0, 0, 0, 0xe, 4, 5, 0xa), Hex(0xe, 4, 5, 0xa, 0xd, 1, 0xa, 0xb));
  }

  /** The byte 1. */
  lemma OneByte()
    ensures Hash([1], 0) == 0xe45ad1ab
  {
    hide Xor32, MixBlock, MixIn, Final, Body, Hash, Times, XorShift;
    var key: seq<byte> := [1];
    NoBlock(key, 0);
    OneByteTail();
    OneByteFinal();
    WithLength(0xc3539a5, 0xd, 1);
    HashTailed(key, 0, 0, 1, 0xc3539a5d, 0xc3539a5d, 0xc3539a5c, 0xe45ad1ab);
  }

  lemma ThreeBytesTail()
    ensures MixBlock(0x616161) == 0x539d25ff && Xor32(0x9747b28c, 0x539d25ff) == 0xc4da9773
  {
    hide MixBlock, Xor32;
    MixBlockIs(0x616161, 0xa2cbdcb1, 0xee58d165, 0x539d25ff);
    XorHex(Hex(9, 7, 4, 7, 0xb, 2, 8, 0xc), Hex(5, 3, 9, 0xd, 2, 5, 0xf, 0xf));
  }

  lemma ThreeBytesFinal()
    ensures Final(0xc4da9770) == 0x283e0130
  {
    hide Final;
    FinalIs(Hex(0xc, 4, 0xd, 0xa, 9, 7, 7, 0), Hex(0, 0, 0, 0, 0xc, 4, 0xd, 0xa), Hex(0xc, 4, 0xd, 0xa, 5, 3, 0xa, 0xa),
            Hex(0xa, 0xc, 5, 3, 1, 0xc, 0, 0xe), Hex(0, 0, 0, 5, 6, 2, 9, 8), Hex(0xa, 0xc, 5, 6, 7, 0xe, 9, 6),
            Hex(2, 8, 3, 0xe, 2, 9, 0, 0xe), Hex(0, 0, 0, 0, 2, 8, 3, 0xe), Hex(2, 8, 3, 0xe, 0, 1, 3, 0));
  }

  /** "aaa". */
  lemma ThreeBytes()
    ensures Hash([0x61, 0x61, 0x61], 0x9747b28c) == 0x283e0130
  {
    hide Xor32, MixBlock, MixIn, Final, Body, Hash, Times, XorShift;
    var key: seq<byte> := [0x61, 0x61, 0x61];
    NoBlock(key, 0x9747b28c);
    ThreeBytesTail();
    ThreeBytesFinal();
    WithLength(0xc4da977, 3, 3);
    HashTailed(key, 0x9747b28c, 0x9747b28c, 0x616161, 0x539d25ff, 0xc4da9773, 0xc4da9770, 0x283e0130);
  }

  lemma OneBlockMixed()
    ensures MixIn(0, 0x74736574) == 0x7985975b
  {
    hide MixBlock, MixIn, Xor32;
    MixBlockIs(0x74736574, 0x2ef07db4, 0x3eda1778, 0x465f51e8);
    WithNothing(0x465f51e8);
    MixInIs(0, 0x74736574, 0x465f51e8, 0xea3d08cb);
  }

  lemma OneBlockFinal()
    ensures Final(0x7985975f) == 0xba6bd213
  {
    hide Final;
    FinalIs(Hex(7, 9, 8, 5, 9, 7, 5, 0xf), Hex(0, 0, 0, 0, 7, 9, 8, 5), Hex(7, 9, 8, 5, 0xe, 0xe, 0xd, 0xa),
            Hex(0xf, 0xd, 9, 0, 0xd, 9, 1, 0xe), Hex(0, 0, 0, 7, 0xe, 0xc, 8, 6), Hex(0xf, 0xd, 9, 7, 3, 5, 9, 8),
            Hex(0xb, 0xa, 6, 0xb, 6, 8, 7, 8), Hex(0, 0, 0, 0, 0xb, 0xa, 6, 0xb), Hex(0xb, 0xa, 6, 0xb, 0xd, 2, 1, 3));
  }

  /** "test". */
  lemma OneBlock()
    ensures Hash([0x74, 0x65, 0x73, 0x74], 0) == 0xba6bd213
  {
    hide Xor32, MixBlock, MixIn, Final, Body, Hash, Times, XorShift;
    var key: seq<byte> := [0x74, 0x65, 0x73, 0x74];
    NoBlock(key, 0);
    OneBlockMixed();
    NextBlock(key, 0, 0, 0, 0x74736574);
    OneBlockFinal();
    WithLength(0x7985975, 0xb, 4);
    HashBlocks(key, 0, 0x7985975b, 0x7985975f, 0xba6bd213);
  }

  lemma Greeting0()
    ensures MixIn(0x9747b28c, 0x6c6c6548) == 0xdae4c92e
  {
    hide MixBlock, MixIn, Xor32;
    MixBlockIs(0x6c6c6548, 0x3e89b3c8, 0xd9e41f44, 0x153080c);
    XorHex(Hex(9, 7, 4, 7, 0xb, 2, 8, 0xc), Hex(0, 1, 5, 3, 0, 8, 0, 0xc));
    MixInIs(0x9747b28c, 0x6c6c6548, 0x9614ba80, 0x975012c2);
  }

  lemma Greeting1()
    ensures MixIn(0xdae4c92e, 0x77202c6f) == 0x71c6b43c
  {
    hide MixBlock, MixIn, Xor32;
    MixBlockIs(0x77202c6f, 0x397f921f, 0xc90f9cbf, 0x7d238cad);
    XorHex(Hex(0xd, 0xa, 0xe, 4, 0xc, 9, 2, 0xe), Hex(7, 0xd, 2, 3, 8, 0xc, 0xa, 0xd));
    MixInIs(0xdae4c92e, 0x77202c6f, 0xa7c74583, 0xe8b074f8);
  }

  lemma Greeting2()
    ensures MixIn(0x71c6b43c, 0x646c726f) == 0x3bd692af
  {
    hide MixBlock, MixIn, Xor32;
    MixBlockIs(0x646c726f, 0xeaefb81f, 0xdc0ff577, 0xa9bc9655);
    XorHex(Hex(7, 1, 0xc, 6, 0xb, 4, 3, 0xc), Hex(0xa, 9, 0xb, 0xc, 9, 6, 5, 5));
    MixInIs(0x71c6b43c, 0x646c726f, 0xd87a2269, 0x444d3b0f);
  }

  lemma GreetingTail()
    ensures MixBlock(0x21) == 0xac5e5123 && Xor32(0x3bd692af, 0xac5e5123) == 0x9788c38c
  {
    hide MixBlock, Xor32;
    MixBlockIs(0x21, 0x6063d771, 0xebb8b031, 0xac5e5123);
    XorHex(Hex(3, 0xb, 0xd, 6, 9, 2, 0xa, 0xf), Hex(0xa, 0xc, 5, 0xe, 5, 1, 2, 3));
  }

  lemma GreetingFinal()
    ensures Final(0x9788c381) == 0x24884cba
  {
    hide Final;
    FinalIs(Hex(9, 7, 8, 8, 0xc, 3, 8, 1), Hex(0, 0, 0, 0, 9, 7, 8, 8), Hex(9, 7, 8, 8, 5, 4, 0, 9),
            Hex(0xb, 9, 8, 0xd, 3, 9, 0xc, 3), Hex(0, 0, 0, 5, 0xc, 0xc, 6, 9), Hex(0xb, 9, 8, 8, 0xf, 5, 0xa, 0xa),
            Hex(2, 4, 8, 8, 6, 8, 3, 2), Hex(0, 0, 0, 0, 2, 4, 8, 8), Hex(2, 4, 8, 8, 4, 0xc, 0xb, 0xa));
  }

  /** "Hello, world!". */
  lemma Greeting()
    ensures Hash([0x48, 0x65, 0x6c, 0x6c, 0x6f, 0x2c, 0x20, 0x77, 0x6f, 0x72, 0x6c, 0x64, 0x21], 0x9747b28c)
            == 0x24884cba
  {
    hide Xor32, MixBlock, MixIn, Final, Body, Hash, Times, XorShift;
    var key: seq<byte> := [0x48, 0x65, 0x6c, 0x6c, 0x6f, 0x2c, 0x20, 0x77, 0x6f, 0x72, 0x6c, 0x64, 0x21];
    NoBlock(key, 0x9747b28c);
    Greeting0();
    NextBlock(key, 0x9747b28c, 0, 0x9747b28c, 0x6c6c6548);
    Greeting1();
    NextBlock(key, 0x9747b28c, 1, 0xdae4c92e, 0x77202c6f);
    Greeting2();
    NextBlock(key, 0x9747b28c, 2, 0x71c6b43c, 0x646c726f);
    GreetingTail();
    GreetingFinal();
    WithLength(0x9788c38, 0xc, 13);
    HashTailed(key, 0x9747b28c, 0x3bd692af, 0x21, 0xac5e5123, 0x9788c38c, 0x9788c381, 0x24884cba);
  }

  // ---- The length ----------------------------------------------------------------------------------

  /** Zero bytes added to the tail leave the state as it was, and the length still changes the hash. */
  lemma LengthCounts(key: seq<byte>, zeros: seq<byte>, seed: word)
    requires |key| + |zeros| < 0x8000_0000 && 0 < |zeros| && |key| % 4 + |zeros| < 4
    requires forall i | 0 <= i < |zeros| :: zeros[i] == 0
    ensures Hash(key + zeros, seed) != Hash(key, seed)
  {
    hide Hash, Body, Blocks, Tail, MixTail, Xor32, Final;
    PaddedState(key, zeros, seed);
    var long := key + zeros;
    var h := MixTail(Body(seed, key, Blocks(key)), Tail(key));
    HashOf(key, seed);
    HashOf(long, seed);
    FinalBack(Xor32(h, |key|));
    FinalBack(Xor32(h, |long|));
    XorBack(|key|, h);
    XorBack(|long|, h);
  }

  lemma HashOf(key: seq<byte>, seed: word)
    requires |key| < 0x8000_0000
    ensures |Tail(key)| < 4 && Hash(key, seed) == Final(Xor32(MixTail(Body(seed, key, Blocks(key)), Tail(key)), |key|))
  {
  }

  lemma PaddedState(key: seq<byte>, zeros: seq<byte>, seed: word)
    requires |key| % 4 + |zeros| < 4 && forall i | 0 <= i < |zeros| :: zeros[i] == 0
    ensures Blocks(key + zeros) == Blocks(key) && |Tail(key)| < 4 && |Tail(key + zeros)| < 4
    ensures MixTail(Body(seed, key + zeros, Blocks(key)), Tail(key + zeros))
            == MixTail(Body(seed, key, Blocks(key)), Tail(key))
  {
    hide *;
    PaddedParts(key, zeros);
    PaddedBody(key, key + zeros, seed, Blocks(key));
    PaddedTail(Body(seed, key, Blocks(key)), Tail(key), zeros);
  }

  lemma PaddedParts(key: seq<byte>, zeros: seq<byte>)
    requires |key| % 4 + |zeros| < 4
    ensures Blocks(key + zeros) == Blocks(key) && Tail(key + zeros) == Tail(key) + zeros
    ensures |Tail(key)| + |zeros| < 4 && key <= key + zeros
  {
  }

  lemma PaddedTail(h: word, t: seq<byte>, zeros: seq<byte>)
    requires |t| + |zeros| < 4 && forall i | 0 <= i < |zeros| :: zeros[i] == 0
    ensures MixTail(h, t + zeros) == MixTail(h, t)
  {
    hide MixBlock, Xor32, Xor, TailWord;
    SameTailWord(t, zeros);
    ZeroBlock();
    ZeroChangesNothing(h);
  }

  lemma SameTailWord(t: seq<byte>, zeros: seq<byte>)
    requires |t| + |zeros| < 4 && forall i | 0 <= i < |zeros| :: zeros[i] == 0
    ensures TailWord(t + zeros) == TailWord(t) && TailWord([]) == 0
  {
  }

  lemma {:induction false} PaddedBody(key: seq<byte>, long: seq<byte>, seed: word, n: nat)
    requires key <= long && n <= Blocks(key)
    ensures Body(seed, long, n) == Body(seed, key, n)
  {
    hide MixIn;
    if n > 0 {
      PaddedBody(key, long, seed, n - 1);
    }
  }

  lemma ZeroBlock()
    ensures MixBlock(0) == 0
  {
    MixBlockIs(0, 0, 0, 0);
  }

  lemma ZeroChangesNothing(h: word)
    ensures Xor32(h, 0) == h
  {
  }
}

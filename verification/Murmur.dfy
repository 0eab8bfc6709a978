/**
 * MurmurHash3_x86_32, the change detector for tag contents. Every step that mixes a block into the
 * state can be undone, so neither a block nor the tail can change without changing the hash.
 */
module Murmur {
  import opened Bitwise

  const WORD := 0x1_0000_0000

  type word = x: int | 0 <= x < WORD

  lemma PowersOf2()
    ensures Pow2(8) == 0x100 && Pow2(16) == 0x1_0000
  {
  }

  lemma WordIs32Bits()
    ensures Pow2(32) == WORD
  {
    PowersOf2();
    assert Pow2(24) == 0x100_0000;
  }

  /** The exclusive or of two words is a word. */
  function Xor32(a: word, b: word): word {
    WordIs32Bits();
    XorBelow(a, b, 32);
    Xor(a, b)
  }

  // ---- Multiplication modulo 2^32 ------------------------------------------------------------------

  function Times(x: word, c: word): word {
    (x * c) % WORD
  }

  /** Multiplying by c and then by its inverse modulo 2^32 changes nothing. */
  lemma TimesBack(x: word, c: word, d: word)
    requires c * d % WORD == 1
    ensures Times(Times(x, c), d) == x
  {
    var t := x * c / WORD;
    var q := c * d / WORD;
    calc {
      Times(x, c) * d;
      (x * c - t * WORD) * d;
      x * (c * d) - t * WORD * d;
      x * (q * WORD + 1) - t * WORD * d;
      (x * q - t * d) * WORD + x;
    }
    RemainderOf(Times(x, c) * d, x * q - t * d, x);
  }

  lemma RemainderOf(a: nat, q: int, x: word)
    requires a == q * WORD + x
    ensures a % WORD == x
  {
  }

  function Plus(x: word, k: word): word {
    (x + k) % WORD
  }

  function Minus(x: word, k: word): word {
    (x - k) % WORD
  }

  lemma PlusBack(x: word, k: word)
    ensures Minus(Plus(x, k), k) == x && Plus(Minus(x, k), k) == x
  {
  }

  // ---- Rotations and xor-shifts --------------------------------------------------------------------

  /** rotl32: the two halves of a shift, glued together. */
  function Rotl(x: word, r: nat): word
    requires 0 < r < 32
  {
    var high, low := Low(Shl(x, r), 32), Shr(x, 32 - r);
    RotlFits(x, r);
    Or(high, low)
  }

  lemma RotlFits(x: word, r: nat)
    requires 0 < r < 32
    ensures Or(Low(Shl(x, r), 32), Shr(x, 32 - r)) < WORD
  {
    var high, low := Low(Shl(x, r), 32), Shr(x, 32 - r);
    WordIs32Bits();
    forall k: nat | k >= 32
      ensures !Bit(Or(high, low), k)
    {
      OrBit(high, low, k);
      LowBit(Shl(x, r), 32, k);
      ShrBit(x, 32 - r, k);
      HighBits(x, 32, k + (32 - r));
    }
    BelowIf(Or(high, low), 32);
  }

  lemma RotlBit(x: word, r: nat, k: nat)
    requires 0 < r < 32
    ensures Bit(Rotl(x, r), k) <==> k < 32 && Bit(x, if k < r then k + (32 - r) else k - r)
  {
    var high, low := Low(Shl(x, r), 32), Shr(x, 32 - r);
    WordIs32Bits();
    OrBit(high, low, k);
    LowBit(Shl(x, r), 32, k);
    ShlBit(x, r, k);
    ShrBit(x, 32 - r, k);
    if k >= r {
      HighBits(x, 32, k + (32 - r));
    }
  }

  /** Rotating on through a full turn gives the word back. */
  lemma RotlBack(x: word, r: nat)
    requires 0 < r < 32
    ensures Rotl(Rotl(x, r), 32 - r) == x
  {
    forall k: nat
      ensures Bit(Rotl(Rotl(x, r), 32 - r), k) <==> Bit(x, k)
    {
      WordIs32Bits();
      RotlBit(Rotl(x, r), 32 - r, k);
      RotlBit(x, r, if k < 32 - r then k + r else k - (32 - r));
      if k >= 32 { HighBits(x, 32, k); }
    }
    SameBits(Rotl(Rotl(x, r), 32 - r), x);
  }

  lemma ShrWord(x: word, n: nat)
    ensures Shr(x, n) < WORD
  {
    WordIs32Bits();
    forall k: nat | k >= 32
      ensures !Bit(Shr(x, n), k)
    {
      ShrBit(x, n, k);
      HighBits(x, 32, k + n);
    }
    BelowIf(Shr(x, n), 32);
  }

  function Shr32(x: word, n: nat): word {
    ShrWord(x, n);
    Shr(x, n)
  }

  function XorShift(x: word, n: nat): word {
    Xor32(x, Shr32(x, n))
  }

  lemma XorShiftBit(x: word, n: nat, k: nat)
    ensures Bit(XorShift(x, n), k) <==> Bit(x, k) != Bit(x, k + n)
  {
    XorBit(x, Shr(x, n), k);
    ShrBit(x, n, k);
  }

  lemma NoBit(x: word, k: nat)
    requires k >= 32
    ensures !Bit(x, k)
  {
    WordIs32Bits();
    HighBits(x, 32, k);
  }

  lemma XorShift16Back(x: word)
    ensures XorShift(XorShift(x, 16), 16) == x
  {
    forall k: nat
      ensures Bit(XorShift(XorShift(x, 16), 16), k) <==> Bit(x, k)
    {
      XorShiftBit(XorShift(x, 16), 16, k);
      XorShiftBit(x, 16, k);
      XorShiftBit(x, 16, k + 16);
      NoBit(x, k + 32);
    }
    SameBits(XorShift(XorShift(x, 16), 16), x);
  }

  function UnXorShift13(y: word): word {
    Xor32(XorShift(y, 13), Shr32(y, 26))
  }

  lemma UnXorShift13Bit(y: word, k: nat)
    ensures Bit(UnXorShift13(y), k) <==> (Bit(y, k) != (Bit(y, k + 13) != Bit(y, k + 26)))
  {
    XorBit(XorShift(y, 13), Shr(y, 26), k);
    XorShiftBit(y, 13, k);
    ShrBit(y, 26, k);
  }

  lemma XorShift13Back(x: word)
    ensures UnXorShift13(XorShift(x, 13)) == x && XorShift(UnXorShift13(x), 13) == x
  {
    var y, u := XorShift(x, 13), UnXorShift13(x);
    forall k: nat
      ensures (Bit(UnXorShift13(y), k) <==> Bit(x, k)) && (Bit(XorShift(u, 13), k) <==> Bit(x, k))
    {
      NoBit(x, k + 39);
      UnXorShift13Bit(y, k);
      XorShiftBit(x, 13, k);
      XorShiftBit(x, 13, k + 13);
      XorShiftBit(x, 13, k + 26);
      XorShiftBit(u, 13, k);
      UnXorShift13Bit(x, k);
      UnXorShift13Bit(x, k + 13);
    }
    SameBits(UnXorShift13(y), x);
    SameBits(XorShift(u, 13), x);
  }

  // ---- The mixing steps ----------------------------------------------------------------------------

  /** A block before it meets the state. */
  function MixBlock(k: word): word {
    Times(Rotl(Times(k, 0xcc9e2d51), 15), 0x1b873593)
  }

  function UnmixBlock(m: word): word {
    Times(Rotl(Times(m, 0x56ed309b), 17), 0xdee13bb1)
  }

  /** The odd constants and their inverses modulo 2^32. */
  lemma Inverses()
    ensures 0xcc9e2d51 * 0xdee13bb1 % WORD == 1 && 0x1b873593 * 0x56ed309b % WORD == 1
    ensures 0x85ebca6b * 0xa5cb9243 % WORD == 1 && 0xc2b2ae35 * 0x7ed1b41d % WORD == 1
  {
  }

  lemma MixBlockBack(k: word)
    ensures UnmixBlock(MixBlock(k)) == k && MixBlock(UnmixBlock(k)) == k
  {
    hide Times, Rotl;
    Inverses();
    TimesBack(Rotl(Times(k, 0xcc9e2d51), 15), 0x1b873593, 0x56ed309b);
    RotlBack(Times(k, 0xcc9e2d51), 15);
    TimesBack(k, 0xcc9e2d51, 0xdee13bb1);
    TimesBack(Rotl(Times(k, 0x56ed309b), 17), 0xdee13bb1, 0xcc9e2d51);
    RotlBack(Times(k, 0x56ed309b), 17);
    TimesBack(k, 0x56ed309b, 0x1b873593);
  }

  function Stir(h: word): word {
    Plus(Times(Rotl(h, 13), 5), 0xe6546b64)
  }

  function Unstir(h: word): word {
    Rotl(Times(Minus(h, 0xe6546b64), 0xcccccccd), 19)
  }

  lemma StirBack(h: word)
    ensures Unstir(Stir(h)) == h && Stir(Unstir(h)) == h
  {
    PlusBack(Times(Rotl(h, 13), 5), 0xe6546b64);
    TimesBack(Rotl(h, 13), 5, 0xcccccccd);
    RotlBack(h, 13);
    var m := Minus(h, 0xe6546b64);
    RotlBack(Times(m, 0xcccccccd), 19);
    TimesBack(m, 0xcccccccd, 5);
    PlusBack(h, 0xe6546b64);
  }

  /** The finalization: three xor-shifts with a multiplication between them, so that every bit spreads. */
  function Final(h: word): word {
    XorShift(Times(XorShift(Times(XorShift(h, 16), 0x85ebca6b), 13), 0xc2b2ae35), 16)
  }

  function Unfinal(h: word): word {
    XorShift(Times(UnXorShift13(Times(XorShift(h, 16), 0x7ed1b41d)), 0xa5cb9243), 16)
  }

  lemma FinalBack(h: word)
    ensures Unfinal(Final(h)) == h && Final(Unfinal(h)) == h
  {
    hide Times, XorShift, UnXorShift13;
    Inverses();
    var a := Times(XorShift(h, 16), 0x85ebca6b);
    XorShift16Back(Times(XorShift(a, 13), 0xc2b2ae35));
    TimesBack(XorShift(a, 13), 0xc2b2ae35, 0x7ed1b41d);
    XorShift13Back(a);
    TimesBack(XorShift(h, 16), 0x85ebca6b, 0xa5cb9243);
    XorShift16Back(h);
    var b := Times(XorShift(h, 16), 0x7ed1b41d);
    XorShift16Back(Times(UnXorShift13(b), 0xa5cb9243));
    TimesBack(UnXorShift13(b), 0xa5cb9243, 0x85ebca6b);
    XorShift13Back(b);
    TimesBack(XorShift(h, 16), 0x7ed1b41d, 0xc2b2ae35);
  }

  lemma XorBack(a: word, b: word)
    ensures Xor32(Xor32(a, b), b) == a && Xor32(b, Xor32(b, a)) == a
  {
    XorTwice(a, b);
    forall k: nat
      ensures Bit(Xor(b, Xor(b, a)), k) <==> Bit(a, k)
    {
      XorBit(b, Xor(b, a), k);
      XorBit(b, a, k);
    }
    SameBits(Xor(b, Xor(b, a)), a);
  }

  // ---- The hash ------------------------------------------------------------------------------------

  function BytesWord(b0: int, b1: int, b2: int, b3: int): int {
    b0 + 0x100 * b1 + 0x1_0000 * b2 + 0x100_0000 * b3
  }

  /** Block i of the key, least significant byte first. */
  function Block(key: seq<byte>, i: nat): word
    requires 4 * i + 4 <= |key|
  {
    BytesWord(key[4 * i], key[4 * i + 1], key[4 * i + 2], key[4 * i + 3])
  }

  function Blocks(key: seq<byte>): nat {
    |key| / 4
  }

  function Tail(key: seq<byte>): seq<byte> {
    key[4 * Blocks(key)..]
  }

  function MixIn(h: word, k: word): word {
    Stir(Xor32(h, MixBlock(k)))
  }

  /** The state after the first n blocks. */
  function Body(seed: word, key: seq<byte>, n: nat): word
    requires n <= Blocks(key)
  {
    if n == 0 then seed else MixIn(Body(seed, key, n - 1), Block(key, n - 1))
  }

  /** The last one to three bytes as a number. */
  function TailWord(t: seq<byte>): word
    requires |t| < 4
  {
    if |t| == 0 then 0
    else if |t| == 1 then t[0]
    else if |t| == 2 then BytesWord(t[0], t[1], 0, 0)
    else BytesWord(t[0], t[1], t[2], 0)
  }

  function MixTail(h: word, t: seq<byte>): word
    requires |t| < 4
  {
    if t == [] then h else Xor32(h, MixBlock(TailWord(t)))
  }

  function Close(h: word, key: seq<byte>): word
    requires |key| < 0x8000_0000
  {
    Final(Xor32(MixTail(h, Tail(key)), |key|))
  }

  function Hash(key: seq<byte>, seed: word): word
    requires |key| < 0x8000_0000
  {
    Close(Body(seed, key, Blocks(key)), key)
  }

  method FMix(h: word) returns (r: word)
    ensures r == Final(h)
  {
    r := Xor32(h, Shr32(h, 16));
    r := Times(r, 0x85ebca6b);
    r := Xor32(r, Shr32(r, 13));
    r := Times(r, 0xc2b2ae35);
    r := Xor32(r, Shr32(r, 16));
  }

  method MurmurHash3_x86_32(key: seq<byte>, seed: word) returns (h1: word)
    requires |key| < 0x8000_0000
    ensures h1 == Hash(key, seed)
  {
    hide Times, Rotl, Plus, Final, Xor32, Block;
    var nblocks := |key| / 4;
    h1 := seed;
    var i := -nblocks;
    while i != 0
      invariant -nblocks <= i <= 0
      invariant h1 == Body(seed, key, nblocks + i)
    {
      var k1 := Block(key, nblocks + i);
      k1 := Times(k1, 0xcc9e2d51);
      k1 := Rotl(k1, 15);
      k1 := Times(k1, 0x1b873593);
      h1 := Xor32(h1, k1);
      h1 := Rotl(h1, 13);
      h1 := Plus(Times(h1, 5), 0xe6546b64);
      i := i + 1;
    }
    h1 := HashTail(h1, key[4 * nblocks..]);
    h1 := Xor32(h1, |key|);
    h1 := FMix(h1);
  }

  /** The fall-through switch over the tail bytes. */
  method HashTail(h: word, tail: seq<byte>) returns (h1: word)
    requires |tail| < 4
    ensures h1 == MixTail(h, tail)
  {
    h1 := h;
    if |tail| > 0 {
      var k1: word := 0;
      if |tail| >= 3 { k1 := Xor32(k1, (tail[2] as int) * 0x1_0000); }
      if |tail| >= 2 { k1 := Xor32(k1, (tail[1] as int) * 0x100); }
      k1 := Xor32(k1, tail[0]);
      XorIsPlus(tail);
      k1 := Times(k1, 0xcc9e2d51);
      k1 := Rotl(k1, 15);
      k1 := Times(k1, 0x1b873593);
      h1 := Xor32(h1, k1);
    }
  }

  lemma XorIsPlus(tail: seq<byte>)
    requires 0 < |tail| < 4
    ensures var a := if |tail| >= 3 then Xor32(0, (tail[2] as int) * 0x1_0000) else 0;
            var b := if |tail| >= 2 then Xor32(a, (tail[1] as int) * 0x100) else a;
            Xor32(b, tail[0]) == TailWord(tail)
  {
    var t0: int := tail[0];
    var t1: int := if |tail| >= 2 then tail[1] else 0;
    var t2: int := if |tail| >= 3 then tail[2] else 0;
    XorFills16(t2, t1 * 0x100);
    XorFills8(t1 + 0x100 * t2, t0);
  }

  lemma XorFills16(a: nat, b: nat)
    requires b < 0x1_0000
    ensures Xor(a * 0x1_0000, b) == a * 0x1_0000 + b
  {
    PowersOf2();
    ShlIsTimes(a, 16);
    FillsLowBits(a, 16, b);
  }

  lemma XorFills8(a: nat, b: nat)
    requires b < 0x100
    ensures Xor(a * 0x100, b) == a * 0x100 + b
  {
    PowersOf2();
    ShlIsTimes(a, 8);
    FillsLowBits(a, 8, b);
  }

  // ---- The whole hash can be run backwards ---------------------------------------------------------

  lemma MixInBack(h: word, k: word)
    ensures Xor32(Unstir(MixIn(h, k)), MixBlock(k)) == h
    ensures MixIn(Xor32(Unstir(h), MixBlock(k)), k) == h
  {
    hide Stir, Unstir, Xor32, MixBlock;
    StirBack(Xor32(h, MixBlock(k)));
    XorBack(h, MixBlock(k));
    XorBack(Unstir(h), MixBlock(k));
    StirBack(h);
  }

  /** The hash as a function of the state before block j. */
  function Rest(h: word, key: seq<byte>, j: nat): word
    requires |key| < 0x8000_0000 && j <= Blocks(key)
    decreases Blocks(key) - j
  {
    if j == Blocks(key) then Close(h, key) else Rest(MixIn(h, Block(key, j)), key, j + 1)
  }

  /** The state before block j as a function of the hash. */
  function Unrest(w: word, key: seq<byte>, j: nat): word
    requires |key| < 0x8000_0000 && j <= Blocks(key)
    decreases Blocks(key) - j
  {
    if j == Blocks(key) then
      var h := Xor32(Unfinal(w), |key|);
      if Tail(key) == [] then h else Xor32(h, MixBlock(TailWord(Tail(key))))
    else
      Xor32(Unstir(Unrest(w, key, j + 1)), MixBlock(Block(key, j)))
  }

  lemma {:induction false} RestBack(h: word, key: seq<byte>, j: nat)
    requires |key| < 0x8000_0000 && j <= Blocks(key)
    ensures Unrest(Rest(h, key, j), key, j) == h && Rest(Unrest(h, key, j), key, j) == h
    decreases Blocks(key) - j
  {
    hide Final, Unfinal, Xor32, MixBlock, TailWord, Stir, Unstir, Block, MixIn;
    if j == Blocks(key) {
      CloseBack(h, key);
    } else {
      var k := Block(key, j);
      RestBack(MixIn(h, k), key, j + 1);
      MixInBack(h, k);
      RestBack(h, key, j + 1);
      MixInBack(Unrest(h, key, j + 1), k);
    }
  }

  lemma CloseBack(h: word, key: seq<byte>)
    requires |key| < 0x8000_0000
    ensures Unrest(Close(h, key), key, Blocks(key)) == h && Close(Unrest(h, key, Blocks(key)), key) == h
  {
    hide Final, Unfinal, Xor32, MixBlock, TailWord;
    var m := MixBlock(TailWord(Tail(key)));
    FinalBack(Xor32(MixTail(h, Tail(key)), |key|));
    XorBack(MixTail(h, Tail(key)), |key|);
    XorBack(h, m);
    FinalBack(h);
    XorBack(Unfinal(h), |key|);
    XorBack(Xor32(Unfinal(h), |key|), m);
  }

  lemma {:induction false} HashIsRest(key: seq<byte>, seed: word, j: nat)
    requires |key| < 0x8000_0000 && j <= Blocks(key)
    ensures Hash(key, seed) == Rest(Body(seed, key, j), key, j)
    decreases Blocks(key) - j
  {
    hide MixIn, Block, Close;
    if j < Blocks(key) { HashIsRest(key, seed, j + 1); }
  }

  /** For a fixed key the hash is a bijection of the seed. */
  lemma SeedBijection(key: seq<byte>, seed: word, w: word)
    requires |key| < 0x8000_0000
    ensures Hash(key, seed) == w <==> seed == Unrest(w, key, 0)
  {
    HashIsRest(key, seed, 0);
    RestBack(seed, key, 0);
    RestBack(w, key, 0);
  }

  // ---- One block -----------------------------------------------------------------------------------

  function WordBytes(w: word): seq<byte> {
    [w % 0x100, (w / 0x100) % 0x100, (w / 0x100 / 0x100) % 0x100, w / 0x100 / 0x100 / 0x100]
  }

  function WithBlock(key: seq<byte>, j: nat, w: word): seq<byte>
    requires j < Blocks(key)
  {
    key[..4 * j] + WordBytes(w) + key[4 * j + 4..]
  }

  /** The one block value at place j that gives the hash w. */
  function BlockFor(key: seq<byte>, seed: word, j: nat, w: word): word
    requires |key| < 0x8000_0000 && j < Blocks(key)
  {
    UnmixBlock(Xor32(Body(seed, key, j), Unstir(Unrest(w, key, j + 1))))
  }

  lemma BytesOfWord(w: word)
    ensures var b := WordBytes(w); BytesWord(b[0], b[1], b[2], b[3]) == w
  {
  }

  lemma WithBlockBlocks(key: seq<byte>, j: nat, w: word)
    requires j < Blocks(key)
    ensures var k := WithBlock(key, j, w);
      && |k| == |key| && Tail(k) == Tail(key)
      && (forall i | 0 <= i < Blocks(key) :: Block(k, i) == if i == j then w else Block(key, i))
  {
    var k := WithBlock(key, j, w);
    BytesOfWord(w);
    assert forall n | 0 <= n < |key| && (n < 4 * j || n >= 4 * j + 4) :: k[n] == key[n];
    assert k[4 * j..4 * j + 4] == WordBytes(w);
  }

  /** Keys that agree below block j reach it in the same state; keys that agree above go on alike. */
  lemma {:induction false} SameBody(key: seq<byte>, other: seq<byte>, seed: word, n: nat)
    requires n <= Blocks(key) && |other| == |key|
    requires forall i | 0 <= i < n :: Block(other, i) == Block(key, i)
    ensures Body(seed, other, n) == Body(seed, key, n)
  {
    hide MixIn, Block;
    if n > 0 { SameBody(key, other, seed, n - 1); }
  }

  lemma {:induction false} SameRest(h: word, key: seq<byte>, other: seq<byte>, j: nat)
    requires j <= Blocks(key) && |other| == |key| < 0x8000_0000 && Tail(other) == Tail(key)
    requires forall i | j <= i < Blocks(key) :: Block(other, i) == Block(key, i)
    ensures Rest(h, other, j) == Rest(h, key, j)
    decreases Blocks(key) - j
  {
    hide MixIn, Block, Final, Xor32, MixBlock;
    if j < Blocks(key) { SameRest(MixIn(h, Block(key, j)), key, other, j + 1); }
  }

  /** At every place of every key, the hash is a bijection of the four bytes there: each of the 2^32
      hashes comes from exactly one block. */
  lemma BlockBijection(key: seq<byte>, seed: word, j: nat, b: word, w: word)
    requires |key| < 0x8000_0000 && j < Blocks(key)
    ensures Hash(WithBlock(key, j, b), seed) == w <==> b == BlockFor(key, seed, j, w)
  {
    hide Stir, Unstir, Xor32, MixBlock, UnmixBlock, Block, Close;
    var k := WithBlock(key, j, b);
    var h := Body(seed, key, j);
    WithBlockBlocks(key, j, b);
    HashIsRest(k, seed, j);
    SameBody(key, k, seed, j);
    SameRest(MixIn(h, b), key, k, j + 1);
    assert Hash(k, seed) == Rest(MixIn(h, b), key, j + 1);
    RestBack(MixIn(h, b), key, j + 1);
    RestBack(w, key, j + 1);
    MixInSolve(h, b, Unrest(w, key, j + 1));
  }

  lemma MixInSolve(h: word, b: word, s: word)
    ensures MixIn(h, b) == s <==> b == UnmixBlock(Xor32(h, Unstir(s)))
  {
    hide Stir, Unstir, Xor32, MixBlock, UnmixBlock;
    StirBack(Xor32(h, MixBlock(b)));
    XorBack(MixBlock(b), h);
    MixBlockBack(b);
    StirBack(s);
    XorBack(Unstir(s), h);
    MixBlockBack(Xor32(h, Unstir(s)));
  }

  /** A change inside one aligned block always changes the hash. */
  lemma BlockChangeDetected(key: seq<byte>, other: seq<byte>, seed: word, j: nat)
    requires |other| == |key| < 0x8000_0000 && j < Blocks(key) && other != key
    requires forall n | 0 <= n < |key| && (n < 4 * j || n >= 4 * j + 4) :: other[n] == key[n]
    ensures Hash(other, seed) != Hash(key, seed)
  {
    hide Hash, BlockFor;
    AsBlock(key, j);
    AsBlock(other, j);
    assert WithBlock(key, j, Block(other, j)) == other;
    BlockBijection(key, seed, j, Block(key, j), Hash(key, seed));
    BlockBijection(key, seed, j, Block(other, j), Hash(key, seed));
  }

  lemma AsBlock(key: seq<byte>, j: nat)
    requires j < Blocks(key)
    ensures WithBlock(key, j, Block(key, j)) == key
    ensures WordBytes(Block(key, j)) == key[4 * j..4 * j + 4]
  {
    var b0: int, b1: int, b2: int, b3: int := key[4 * j], key[4 * j + 1], key[4 * j + 2], key[4 * j + 3];
    WordOfBytes(b0, b1, b2, b3);
    assert key == key[..4 * j] + key[4 * j..4 * j + 4] + key[4 * j + 4..];
  }

  lemma WordOfBytes(b0: byte, b1: byte, b2: byte, b3: byte)
    ensures var w := BytesWord(b0, b1, b2, b3);
      0 <= w < WORD && WordBytes(w) == [b0, b1, b2, b3]
  {
    var q3: int := b3;
    var q2 := b2 + 0x100 * q3;
    var q1 := b1 + 0x100 * q2;
    var w := b0 + 0x100 * q1;
    assert w == BytesWord(b0, b1, b2, b3);
    LastByte(b0, q1);
    LastByte(b1, q2);
    LastByte(b2, q3);
  }

  lemma LastByte(b: byte, q: nat)
    ensures (b + 0x100 * q) % 0x100 == b && (b + 0x100 * q) / 0x100 == q
  {
  }

  /** On four-byte keys the hash is a bijection onto the 32-bit words. */
  lemma FourByteBijection(key: seq<byte>, seed: word, w: word)
    requires |key| == 4
    ensures Hash(key, seed) == w <==> key == WordBytes(BlockFor([0, 0, 0, 0], seed, 0, w))
  {
    var zero: seq<byte> := [0, 0, 0, 0];
    hide Hash, BlockFor;
    AsBlock(key, 0);
    assert WithBlock(zero, 0, Block(key, 0)) == key;
    BlockBijection(zero, seed, 0, Block(key, 0), w);
    var b := BlockFor(zero, seed, 0, w);
    assert WithBlock(zero, 0, b) == WordBytes(b);
    BytesOfWord(b);
  }

  /** A change inside the one to three tail bytes always changes the hash. */
  lemma TailChangeDetected(key: seq<byte>, other: seq<byte>, seed: word)
    requires |other| == |key| < 0x8000_0000 && other != key
    requires forall n | 0 <= n < 4 * Blocks(key) :: other[n] == key[n]
    ensures Hash(other, seed) != Hash(key, seed)
  {
    hide Final, Unfinal, Xor32, MixBlock, UnmixBlock, MixIn, TailWord;
    var h, t, u := Body(seed, key, Blocks(key)), Tail(key), Tail(other);
    SameBody(key, other, seed, Blocks(key));
    var m := 4 * Blocks(key);
    assert key == key[..m] + t && other == other[..m] + u && key[..m] == other[..m];
    if TailWord(t) == TailWord(u) {
      TailWordInjective(t, u);
    }
    MixBlockBack(TailWord(t));
    MixBlockBack(TailWord(u));
    XorBack(MixBlock(TailWord(t)), h);
    XorBack(MixBlock(TailWord(u)), h);
    XorBack(MixTail(h, t), |key|);
    XorBack(MixTail(h, u), |key|);
    FinalBack(Xor32(MixTail(h, t), |key|));
    FinalBack(Xor32(MixTail(h, u), |key|));
  }

  lemma TailWordInjective(t: seq<byte>, u: seq<byte>)
    requires |t| == |u| < 4 && TailWord(t) == TailWord(u)
    ensures t == u
  {
    if |t| > 0 {
      WordOfBytes(t[0], if |t| > 1 then t[1] else 0, if |t| > 2 then t[2] else 0, 0);
      WordOfBytes(u[0], if |t| > 1 then u[1] else 0, if |t| > 2 then u[2] else 0, 0);
    }
  }
}

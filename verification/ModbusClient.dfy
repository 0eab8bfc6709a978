/**
 * The loops of the client: flags into the bits of a query, bits of a reply into flags.
 */
module ModbusClient {
  import opened Bitwise
  import opened ModbusSpec
  import opened ModbusBits
  import opened ModbusSlave

  predicate LowOnes(y: nat, k: nat) {
    k == 0 || (y % 2 == 1 && LowOnes(y / 2, k - 1))
  }

  lemma {:induction false} OnesBit(y: nat, k: nat, j: nat)
    requires LowOnes(y, k) && j < k
    ensures Bit(y, j)
  {
    if j > 0 {
      OnesBit(y / 2, k - 1, j - 1);
    }
  }

  lemma {:induction false} AndSwaps(a: nat, b: nat)
    ensures And(a, b) == And(b, a)
  {
    if a > 0 && b > 0 {
      AndSwaps(a / 2, b / 2);
    }
  }

  lemma {:induction false} Pow2Grows(k: nat, n: nat)
    requires k <= n
    ensures Pow2(k) <= Pow2(n)
  {
    if k < n {
      Pow2Grows(k, n - 1);
    }
  }

  lemma ByteOnes()
    ensures LowOnes(0xFF, 8) && Pow2(8) == 0x100
  {
  }

  /** The mask bit has left the byte when eight bits are done. */
  lemma ByteMask(k: nat)
    requires k <= 8
    ensures And(Pow2(k), 0xFF) != 0 <==> k < 8
    ensures Pow2(k) <= 0x100 && (k < 8 ==> Pow2(k) < 0x100)
  {
    ByteOnes();
    Pow2Grows(k, 8);
    AndSwaps(Pow2(k), 0xFF);
    MaskBit(0xFF, k);
    if k < 8 {
      OnesBit(0xFF, 8, k);
      Pow2Grows(k + 1, 8);
    } else {
      HighBits(0xFF, 8, 8);
    }
    hide And, LowOnes, Bit;
  }

  lemma TwicePow2(k: nat)
    ensures Pow2(k + 1) == 2 * Pow2(k)
  {
  }

  // ---- Reading -------------------------------------------------------------------------------------

  /** Spreads the bits of one byte over the destination, up to cell nb. */
  method UnpackByte(temp: byte, nb: nat, dest: array<byte>, start: nat, ghost i: nat, ghost tab: seq<byte>,
                    ghost before: seq<byte>)
      returns (pos: nat)
    requires start == 8 * i <= nb <= |before| && i < |tab| && temp == tab[i]
    requires BitsSet(dest[..], before, 0, tab, start)
    modifies dest
    ensures pos == (if start + 8 < nb then start + 8 else nb) && BitsSet(dest[..], before, 0, tab, pos)
  {
    hide *;
    pos := start;
    var bit := 1;
    ghost var k := 0;
    PowerOfNought();
    ByteMask(0);
    while And(bit, 0xFF) != 0 && pos < nb
      invariant k <= 8 && bit == Pow2(k) && (And(bit, 0xFF) != 0 <==> k < 8)
      invariant pos == start + k <= nb && BitsSet(dest[..], before, 0, tab, pos)
      decreases nb - pos
    {
      OneShifted(k);
      BitsSetLength(dest[..], before, 0, tab, pos);
      BitsSetNext(dest[..], before, 0, tab, i, k);
      Store(dest, pos, if And(temp, bit) != 0 then 1 else 0);
      TwicePow2(k);
      ByteMask(k + 1);
      pos, bit, k := pos + 1, 2 * bit, k + 1;
    }
  }

  lemma BitsSetLength(dest: seq<byte>, before: seq<byte>, address: nat, tab: seq<byte>, n: nat)
    requires BitsSet(dest, before, address, tab, n)
    ensures |dest| == |before|
  {
  }

  /** Spreads the bits of the reply's bytes over the destination, up to nb of them. */
  method UnpackStatus(response: array<byte>, count: nat, nb: nat, dest: array<byte>)
    requires response.Length == MAX_MESSAGE_LENGTH && nb <= dest.Length && response != dest
    requires count <= MAX_MESSAGE_LENGTH - 9 && count <= if nb == 0 then 1 else Bytes(nb)
    modifies dest
    ensures var n := if 8 * count < nb then 8 * count else nb;
      n <= 8 * |response[9..]| && dest[..] == Splice(old(dest[..]), 0, UnpackBits(response[9..], n))
  {
    ghost var tab, before := response[9..], dest[..];
    var pos := 0;
    BitsSetNone(before, 0, tab);
    assert |tab| == MAX_MESSAGE_LENGTH - 9;
    hide *;
    for i := 0 to count
      invariant pos == (if 8 * i < nb then 8 * i else nb) && BitsSet(dest[..], before, 0, tab, pos)
      invariant forall k | 0 <= k < |tab| :: response[9 + k] == tab[k]
    {
      if nb > 0 {
        BytesBound(nb, i);
      }
      pos := UnpackByte(response[9 + i], nb, dest, pos, i, tab, before);
    }
    BitsSetAll(dest[..], before, 0, tab, pos);
  }

  lemma PowerOfNought()
    ensures Pow2(0) == 1
  {
  }

  lemma BytesBound(nb: nat, i: nat)
    requires i < Bytes(nb)
    ensures 8 * i < nb
  {
  }

  // ---- Writing -------------------------------------------------------------------------------------

  lemma {:induction false} AndKeeps(x: nat, y: nat, k: nat)
    requires x < Pow2(k) && LowOnes(y, k)
    ensures And(x, y) == x
  {
    if k > 0 && x > 0 {
      AndKeeps(x / 2, y / 2, k - 1);
    }
  }

  lemma {:induction false} OthersAreOnes(n: nat, k: nat)
    requires k < n
    ensures Pow2(k) < Pow2(n) && LowOnes(Pow2(n) - 1 - Pow2(k), k)
  {
    if k > 0 {
      OthersAreOnes(n - 1, k - 1);
    }
  }

  lemma GatherSmall(cells: seq<byte>)
    requires Clean(cells)
    ensures Gather(cells) < Pow2(|cells|)
  {
    forall j: nat | j >= |cells|
      ensures !Bit(Gather(cells), j)
    {
      GatherBit(cells, j);
      forall i | 0 <= i < |cells| && i <= j
        ensures !Bit(cells[i], j - i)
      {
        SmallBit(cells[i], j - i);
      }
    }
    BelowIf(Gather(cells), |cells|);
  }

  /** The bit of one flag, set by or or cleared by and. */
  function WithFlag(bits: byte, mask: byte, flag: byte): nat {
    if flag != 0 then Or(bits, mask) else And(bits, 0xFF - mask)
  }

  lemma WithFlagIs(bits: byte, k: nat, mask: byte, flag: byte)
    requires k < 8 && flag <= 1 && mask == Pow2(k) && bits < Pow2(k)
    ensures WithFlag(bits, mask, flag) == Or(bits, Shl(flag, k))
  {
    WithFlagCases(bits, mask, flag);
    hide *;
    if flag == 0 {
      ByteOnes();
      OthersAreOnes(8, k);
      AndKeeps(bits, 0xFF - mask, k);
      ShlNothing(k, bits);
    } else {
      OneShifted(k);
    }
  }

  lemma WithFlagCases(bits: byte, mask: byte, flag: byte)
    ensures flag == 0 ==> WithFlag(bits, mask, flag) == And(bits, 0xFF - mask)
    ensures flag != 0 ==> WithFlag(bits, mask, flag) == Or(bits, mask)
  {
    hide And, Or;
  }

  lemma GatheredByte(g: seq<byte>, k: nat, bits: nat)
    requires Clean(g) && |g| == k <= 8 && bits == Gather(g)
    ensures bits < Pow2(k) && bits < 0x100
  {
    hide *;
    GatherSmall(g);
    ByteMask(k);
  }

  lemma FlagGathered(cells: seq<byte>, from: nat, k: nat, mask: byte, bits: byte)
    requires Clean(cells) && k < 8 && mask == Pow2(k) && from + k < |cells|
    requires bits == Gather(cells[from..from + k])
    ensures WithFlag(bits, mask, cells[from + k]) == Or(bits, Shl(cells[from + k], k)) < 256
  {
    var c, g, h := cells[from + k], cells[from..from + k], cells[from..from + k + 1];
    assert c <= 1;
    SliceClean(cells, from, from + k);
    SliceClean(cells, from, from + k + 1);
    hide *;
    GatherNext(cells, from, k);
    GatheredByte(g, k, bits);
    GatheredByte(h, k + 1, Gather(h));
    WithFlagIs(bits, k, mask, c);
  }

  lemma SliceClean(cells: seq<byte>, from: nat, to: nat)
    requires Clean(cells) && from <= to <= |cells|
    ensures Clean(cells[from..to])
  {
  }

  lemma {:induction false} ShlNothing(k: nat, b: nat)
    ensures Shl(0, k) == 0 && Or(b, Shl(0, k)) == b
  {
    if k > 0 {
      ShlNothing(k - 1, b);
    }
  }

  lemma PackingBits(cells: seq<byte>, m: nat, k: nat, out: seq<byte>, at: nat, before: seq<byte>, bits: nat)
    requires Packing(cells, m, k, bits, out, at, before)
    ensures 8 * m + k <= |cells| && bits == Gather(cells[8 * m..8 * m + k])
  {
  }

  /** One more flag in the byte being filled. */
  lemma FlagPacked(cells: seq<byte>, m: nat, k: nat, mask: byte, out: seq<byte>, at: nat, before: seq<byte>, bits: byte)
    requires Clean(cells) && k < 8 && mask == Pow2(k) && 8 * m + k < |cells| && at + m < |out|
    requires Packing(cells, m, k, bits, out, at, before)
    ensures WithFlag(bits, mask, cells[8 * m + k]) < 256
    ensures k < 7 ==> Packing(cells, m, k + 1, WithFlag(bits, mask, cells[8 * m + k]), out, at, before)
    ensures k == 7 ==> Packing(cells, m + 1, 0, 0, out[at + m := WithFlag(bits, mask, cells[8 * m + k])], at, before)
  {
    hide *;
    PackingBits(cells, m, k, out, at, before, bits);
    FlagGathered(cells, 8 * m, k, mask, bits);
    if k < 7 {
      PackingMore(cells, m, k, bits, out, at, before);
    } else {
      PackingFull(cells, m, bits, out, at, before);
    }
  }

  /** The flags of one byte of the query; k counts them, and the rest of the buffer is as it was at the start. */
  ghost predicate Filling(cells: seq<byte>, m: nat, k: nat, now: seq<byte>, out: seq<byte>, at: nat,
                          before: seq<byte>)
  {
    && at + m < |out| && |now| == |out|
    && if k < 8 then Packing(cells, m, k, now[at + m], out, at, before) && now == out[at + m := now[at + m]]
       else Packing(cells, m + 1, 0, 0, now, at, before)
  }

  lemma FillingStarts(cells: seq<byte>, m: nat, out: seq<byte>, at: nat, before: seq<byte>)
    requires Packing(cells, m, 0, 0, out, at, before) && 8 * m < |cells|
    ensures at + m < |out| && Filling(cells, m, 0, out[at + m := 0], out, at, before)
  {
  }

  lemma FillingNext(cells: seq<byte>, m: nat, k: nat, mask: byte, now: seq<byte>, out: seq<byte>, at: nat,
                    before: seq<byte>, flag: byte)
    requires Filling(cells, m, k, now, out, at, before) && Clean(cells) && k < 8 && mask == Pow2(k)
    requires 8 * m + k < |cells| && cells[8 * m + k] == if flag != 0 then 1 else 0
    ensures at + m < |now| && WithFlag(now[at + m], mask, flag) < 256
    ensures Filling(cells, m, k + 1, now[at + m := WithFlag(now[at + m], mask, flag)], out, at, before)
  {
    var bits := now[at + m];
    FlagPacked(cells, m, k, mask, out, at, before, bits);
    hide Packing, Or, And, Clean, Pow2;
    assert WithFlag(bits, mask, flag) == WithFlag(bits, mask, cells[8 * m + k]);
  }

  lemma FillingIs(cells: seq<byte>, m: nat, k: nat, now: seq<byte>, out: seq<byte>, at: nat, before: seq<byte>)
    requires Filling(cells, m, k, now, out, at, before)
    ensures at + m < |out| == |now|
    ensures k < 8 ==> Packing(cells, m, k, now[at + m], out, at, before) && now == out[at + m := now[at + m] % 256]
    ensures k >= 8 ==> Packing(cells, m + 1, 0, 0, now, at, before)
  {
    hide Packing;
    assert now[at + m] % 256 == now[at + m];
  }

  lemma FillingEnds(cells: seq<byte>, m: nat, k: nat, now: seq<byte>, out: seq<byte>, at: nat, before: seq<byte>)
    requires Filling(cells, m, k, now, out, at, before) && 0 < k <= 8
    requires k < 8 ==> 8 * m + k == |cells|
    ensures k == 8 ==> Packing(cells, m + 1, 0, 0, now, at, before)
    ensures k < 8 ==> FlagsPacked(cells, now, at, before) && Bytes(|cells|) == m + 1
  {
    hide *;
    FillingIs(cells, m, k, now, out, at, before);
    if k < 8 {
      PackingEnds(cells, m, k, now[at + m], out, at, before);
      PackingLengths(cells, m, k, now[at + m], out, at, before);
      FlagsPackedIf(cells, now, at, before);
    }
  }

  lemma PackingLengths(cells: seq<byte>, m: nat, k: nat, bits: nat, out: seq<byte>, at: nat, before: seq<byte>)
    requires Packing(cells, m, k, bits, out, at, before)
    ensures |out| == |before| && |PackBits(cells)| == Bytes(|cells|) && at + Bytes(|cells|) <= |before|
  {
  }

  ghost predicate FlagsPacked(cells: seq<byte>, now: seq<byte>, at: nat, before: seq<byte>) {
    at + |PackBits(cells)| <= |before| && now == Splice(before, at, PackBits(cells))
  }

  lemma FlagsPackedIf(cells: seq<byte>, now: seq<byte>, at: nat, before: seq<byte>)
    requires at + |PackBits(cells)| <= |before| && now == Splice(before, at, PackBits(cells))
    ensures FlagsPacked(cells, now, at, before)
  {
  }

  lemma AllFull(cells: seq<byte>, m: nat, now: seq<byte>, at: nat, before: seq<byte>)
    requires Packing(cells, m, 0, 0, now, at, before) && 8 * m == |cells|
    ensures FlagsPacked(cells, now, at, before) && Bytes(|cells|) == m
  {
    hide *;
    PackingEnds(cells, m, 0, 0, now, at, before);
    PackingLengths(cells, m, 0, 0, now, at, before);
    FlagsPackedIf(cells, now, at, before);
  }

  /** Packs the flags of one byte; coilCheck counts the flags used. */
  method PackByte(data: array<byte>, nb: nat, coilCheck0: nat, query: array<byte>, pos: nat,
                  ghost at: nat, ghost m: nat, ghost cells: seq<byte>, ghost before: seq<byte>)
      returns (coilCheck: nat, ghost k: nat)
    requires nb <= data.Length && data != query && coilCheck0 == 8 * m < nb == |cells| && Clean(cells) && pos == at + m
    requires forall i | 0 <= i < nb :: cells[i] == if data[i] != 0 then 1 else 0
    requires Packing(cells, m, 0, 0, query[..], at, before)
    modifies query
    ensures 0 < k <= 8 && coilCheck == 8 * m + k <= nb && (k < 8 ==> coilCheck == nb)
    ensures Filling(cells, m, k, query[..], old(query[..]), at, before)
  {
    ghost var out := query[..];
    coilCheck, k := coilCheck0, 0;
    FillingStarts(cells, m, out, at, before);
    hide *;
    Store(query, pos, 0);
    var bit := 1;
    PowerOfNought();
    ByteMask(0);
    while And(bit, 0xFF) != 0 && coilCheck < nb
      invariant k <= 8 && bit == Pow2(k) && (And(bit, 0xFF) != 0 <==> k < 8)
      invariant coilCheck == 8 * m + k <= nb
      invariant Filling(cells, m, k, query[..], out, at, before)
      decreases nb - coilCheck
    {
      ByteMask(k);
      FillingNext(cells, m, k, bit, query[..], out, at, before, data[coilCheck]);
      Store(query, pos, WithFlag(query[pos], bit, data[coilCheck]));
      TwicePow2(k);
      ByteMask(k + 1);
      coilCheck, bit, k := coilCheck + 1, 2 * bit, k + 1;
    }
  }

  lemma FlagsOf(data: seq<byte>)
    ensures |Flags(data)| == |data| && Clean(Flags(data))
    ensures forall i | 0 <= i < |data| :: Flags(data)[i] == if data[i] != 0 then 1 else 0
  {
  }

  /** Packs the flags, eight to a byte, the last byte filled up with zeros. */
  method PackFlags(data: array<byte>, nb: nat, query: array<byte>, at: nat)
    requires nb <= data.Length && data != query && at + Bytes(nb) <= query.Length
    modifies query
    ensures FlagsPacked(Flags(data[..nb]), query[..], at, old(query[..]))
  {
    ghost var cells, before := Flags(data[..nb]), query[..];
    var byteCount, coilCheck: nat := Bytes(nb), 0;
    FlagsOf(data[..nb]);
    PackingStarts(cells, before, at);
    hide *;
    for i := 0 to byteCount
      invariant 8 * i <= nb ==> coilCheck == 8 * i && Packing(cells, i, 0, 0, query[..], at, before)
      invariant 8 * i > nb ==> i == byteCount && FlagsPacked(cells, query[..], at, before)
      invariant forall k | 0 <= k < nb :: cells[k] == if data[k] != 0 then 1 else 0
    {
      BytesBound(nb, i);
      ghost var out, k := query[..], 0;
      coilCheck, k := PackByte(data, nb, coilCheck, query, at + i, at, i, cells, before);
      FillingEnds(cells, i, k, query[..], out, at, before);
    }
    if 8 * byteCount == nb {
      AllFull(cells, byteCount, query[..], at, before);
    }
    BytesCover(nb);
  }

  lemma BytesCover(nb: nat)
    ensures nb <= 8 * Bytes(nb)
  {
  }
}

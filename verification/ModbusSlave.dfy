/**
 * The slave: it keeps four tables in arrays and serves one query after the other from them, in place.
 */
module ModbusSlave {
  import opened Bitwise
  import opened ModbusSpec

  /** The four tables of a slave. */
  class Mapping {
    const coils: array<byte>
    const inputs: array<byte>
    const holding: array<word>
    const inputRegisters: array<word>

    constructor (nbCoils: nat, nbInputs: nat, nbHolding: nat, nbInputRegisters: nat)
      ensures Valid() && fresh(coils) && fresh(inputs) && fresh(holding) && fresh(inputRegisters)
      ensures coils.Length == nbCoils && inputs.Length == nbInputs
      ensures holding.Length == nbHolding && inputRegisters.Length == nbInputRegisters
    {
      coils, inputs := new byte[nbCoils](i => 0), new byte[nbInputs](i => 0);
      holding, inputRegisters := new word[nbHolding](i => 0), new word[nbInputRegisters](i => 0);
    }

    ghost predicate Valid() {
      && coils != inputs && holding != inputRegisters
      && (coils as object) != holding && (coils as object) != inputRegisters
      && (inputs as object) != holding && (inputs as object) != inputRegisters
    }

    /** Shares no array with the given one. */
    ghost predicate Apart(a: object) {
      a != coils && a != inputs && a != holding && a != inputRegisters
    }

    ghost function Abs(): Tables
      reads coils, inputs, holding, inputRegisters
    {
      Tables(coils[..], inputs[..], holding[..], inputRegisters[..])
    }
  }

  // ---- Bits ----------------------------------------------------------------------------------------

  lemma {:induction false} OneBit(k: nat, j: nat)
    ensures Bit(Pow2(k), j) <==> j == k
  {
    if k == 0 {
      if j > 0 {
        ZeroBits(j - 1);
      }
    } else if j > 0 {
      OneBit(k - 1, j - 1);
    }
  }

  /** Masking with one bit tells that bit. */
  lemma MaskBit(x: nat, k: nat)
    ensures And(x, Pow2(k)) != 0 <==> Bit(x, k)
  {
    OneBit(k, k);
    AndBit(x, Pow2(k), k);
    if And(x, Pow2(k)) != 0 {
      var j := TopBit(And(x, Pow2(k)));
      AndBit(x, Pow2(k), j);
      OneBit(k, j);
    } else {
      ZeroBits(k);
    }
  }

  lemma OneShifted(k: nat)
    ensures Shl(1, k) == Pow2(k)
  {
    ShlIsTimes(1, k);
  }

  /** One assignment to an array, as an update of its contents. */
  method Store<T>(a: array<T>, i: nat, x: T)
    requires i < a.Length
    modifies a
    ensures a[..] == old(a[..])[i := x]
  {
    a[i] := x;
  }

  /** A register, high byte first. */
  method StoreWord(a: array<byte>, i: nat, w: word) returns (next: nat)
    requires i + 1 < a.Length
    modifies a
    ensures next == i + 2 && a[..] == old(a[..])[i := Hi(w)][i + 1 := Lo(w)]
  {
    a[i] := Hi(w);
    a[i + 1] := Lo(w);
    next := i + 2;
  }

  // ---- Replies -------------------------------------------------------------------------------------

  /** The first m bytes are stored, and shift cells of the next one are or-ed together. */
  ghost predicate Packing(cells: seq<byte>, m: nat, shift: nat, bits: nat, out: seq<byte>, at: nat, before: seq<byte>) {
    && shift < 8 && 8 * m + shift <= |cells| && |out| == |before| && at + Bytes(|cells|) <= |out|
    && (forall k | 0 <= k < |out| && !(at <= k < at + m) :: out[k] == before[k])
    && (forall k | 0 <= k < m :: out[at + k] == Gather(Group(cells, k)) % 256)
    && bits == Gather(cells[8 * m..8 * m + shift])
  }

  lemma PackingStarts(cells: seq<byte>, before: seq<byte>, at: nat)
    requires at + Bytes(|cells|) <= |before|
    ensures Packing(cells, 0, 0, 0, before, at, before)
  {
  }

  lemma GatherNext(cells: seq<byte>, from: nat, shift: nat)
    requires from + shift < |cells|
    ensures Gather(cells[from..from + shift + 1])
            == Or(Gather(cells[from..from + shift]), Shl(cells[from + shift], shift))
  {
    var g := cells[from..from + shift + 1];
    assert g[..|g| - 1] == cells[from..from + shift];
  }

  lemma GatherNothing(cells: seq<byte>, from: nat)
    requires from <= |cells|
    ensures Gather(cells[from..from]) == 0
  {
  }

  lemma PackingFull(cells: seq<byte>, m: nat, bits: nat, out: seq<byte>, at: nat, before: seq<byte>)
    requires Packing(cells, m, 7, bits, out, at, before) && 8 * m + 7 < |cells|
    ensures at + m < |out|
    ensures Packing(cells, m + 1, 0, 0, out[at + m := Or(bits, Shl(cells[8 * m + 7], 7)) % 256], at, before)
  {
    GatherNext(cells, 8 * m, 7);
    GatherNothing(cells, 8 * m + 8);
    assert Group(cells, m) == cells[8 * m..8 * m + 8];
    hide Gather, Or, Shl, Group;
  }

  lemma PackingMore(cells: seq<byte>, m: nat, shift: nat, bits: nat, out: seq<byte>, at: nat, before: seq<byte>)
    requires Packing(cells, m, shift, bits, out, at, before) && 8 * m + shift < |cells| && shift < 7
    ensures Packing(cells, m, shift + 1, Or(bits, Shl(cells[8 * m + shift], shift)), out, at, before)
  {
    GatherNext(cells, 8 * m, shift);
    hide Gather, Or, Shl, Group;
  }

  lemma PackingEnds(cells: seq<byte>, m: nat, shift: nat, bits: nat, out: seq<byte>, at: nat, before: seq<byte>)
    requires Packing(cells, m, shift, bits, out, at, before) && 8 * m + shift == |cells|
    ensures Bytes(|cells|) == m + (if shift != 0 then 1 else 0) && at + Bytes(|cells|) <= |out|
    ensures (if shift != 0 then out[at + m := bits % 256] else out) == Splice(before, at, PackBits(cells))
  {
    var done := if shift != 0 then out[at + m := bits % 256] else out;
    var p := PackBits(cells);
    if shift != 0 {
      assert Group(cells, m) == cells[8 * m..8 * m + shift];
    }
    hide Gather;
    forall k | 0 <= k < |done| ensures done[k] == Splice(before, at, p)[k] {
      if at <= k < at + |p| {
        assert Splice(before, at, p)[k] == p[k - at];
      }
    }
  }

  /** Or-s the cells, each shifted to its place, and stores every eight as the low byte. */
  method ResponseIoStatus(address: nat, nb: nat, tab: array<byte>, response: array<byte>, offset: nat,
                          ghost cells: seq<byte>)
      returns (next: nat)
    requires address + nb <= tab.Length && offset + Bytes(nb) <= response.Length && tab != response
    requires cells == tab[address..address + nb]
    modifies response
    ensures next == offset + Bytes(nb)
    ensures response[..] == Splice(old(response[..]), offset, PackBits(cells))
  {
    ghost var before, m: nat := response[..], 0;
    var shift: nat, bits: nat := 0, 0;
    next := offset;
    var i := address;
    PackingStarts(cells, before, offset);
    hide *;
    while i < address + nb
      invariant i == address + 8 * m + shift <= address + nb && next == offset + m && shift < 8
      invariant Packing(cells, m, shift, bits, response[..], offset, before)
      invariant forall k | 0 <= k < nb :: tab[address + k] == cells[k]
    {
      assert i == address + (8 * m + shift) && tab[i] == cells[8 * m + shift];
      ghost var was, out := bits, response[..];
      bits := Or(bits, Shl(tab[i], shift));
      if shift == 7 {
        PackingFull(cells, m, was, out, offset, before);
        Store(response, next, bits % 256);
        next, m := next + 1, m + 1;
        bits, shift := 0, 0;
      } else {
        PackingMore(cells, m, shift, was, out, offset, before);
        shift := shift + 1;
      }
      i := i + 1;
    }
    PackingEnds(cells, m, shift, bits, response[..], offset, before);
    if shift != 0 {
      Store(response, next, bits % 256);
      next := next + 1;
    }
  }

  // ---- Growing a part of a buffer ------------------------------------------------------------------

  lemma SpliceNext<T>(before: seq<T>, at: nat, part: seq<T>, x: T)
    requires at + |part| < |before|
    ensures Splice(before, at, part)[at + |part| := x] == Splice(before, at, part + [x])
    ensures |Splice(before, at, part)| == |before|
  {
  }

  lemma SpliceNothing<T>(before: seq<T>, at: nat)
    requires at <= |before|
    ensures Splice(before, at, []) == before
  {
  }

  lemma PackWordsNext(words: seq<word>, n: nat)
    requires n < |words|
    ensures |PackWords(words[..n])| == 2 * n
    ensures PackWords(words[..n + 1]) == PackWords(words[..n]) + [Hi(words[n])] + [Lo(words[n])]
  {
    var p, r := PackWords(words[..n + 1]), PackWords(words[..n]) + [Hi(words[n])] + [Lo(words[n])];
    forall i | 0 <= i < |p| ensures p[i] == r[i] {
      assert words[..n + 1][i / 2] == words[i / 2];
      assert i < 2 * n ==> words[..n][i / 2] == words[i / 2];
    }
  }

  lemma PackWordsAll(words: seq<word>)
    ensures words[..|words|] == words && words[..0] == [] && PackWords([]) == [] && |PackWords(words)| == 2 * |words|
  {
  }

  /** n registers have been put into the reply. */
  ghost predicate WordsPut(out: seq<byte>, before: seq<byte>, offset: nat, words: seq<word>, n: nat) {
    && n <= |words| && offset + 2 * |words| <= |before|
    && out == Splice(before, offset, PackWords(words[..n]))
  }

  lemma WordsPutNext(out: seq<byte>, before: seq<byte>, offset: nat, words: seq<word>, n: nat)
    requires WordsPut(out, before, offset, words, n) && n < |words|
    ensures |out| == |before|
    ensures var put := out[offset + 2 * n := Hi(words[n])][offset + 2 * n + 1 := Lo(words[n])];
      WordsPut(put, before, offset, words, n + 1)
  {
    var part := PackWords(words[..n]);
    PackWordsNext(words, n);
    SpliceNext(before, offset, part, Hi(words[n]));
    SpliceNext(before, offset, part + [Hi(words[n])], Lo(words[n]));
    hide PackWords, Splice, Hi, Lo;
  }

  lemma WordsPutNone(before: seq<byte>, offset: nat, words: seq<word>)
    requires offset + 2 * |words| <= |before|
    ensures WordsPut(before, before, offset, words, 0)
  {
    PackWordsAll(words);
    SpliceNothing(before, offset);
  }

  lemma WordsPutAll(out: seq<byte>, before: seq<byte>, offset: nat, words: seq<word>)
    requires WordsPut(out, before, offset, words, |words|)
    ensures |PackWords(words)| == 2 * |words| && offset + 2 * |words| <= |before|
    ensures out == Splice(before, offset, PackWords(words))
  {
    PackWordsAll(words);
  }

  /** Two bytes for each register. */
  method ResponseRegisters(address: nat, nb: nat, tab: array<word>, response: array<byte>, offset: nat,
                           ghost words: seq<word>)
      returns (next: nat)
    requires address + nb <= tab.Length && offset + 2 * nb <= response.Length && (tab as object) != response
    requires words == tab[address..address + nb]
    modifies response
    ensures next == offset + 2 * nb
    ensures response[..] == Splice(old(response[..]), offset, PackWords(words))
  {
    ghost var before, n := response[..], 0;
    next := offset;
    WordsPutNone(before, offset, words);
    hide *;
    var i := address;
    while i < address + nb
      invariant i == address + n <= address + nb && next == offset + 2 * n
      invariant WordsPut(response[..], before, offset, words, n)
      invariant forall k | 0 <= k < nb :: tab[address + k] == words[k]
    {
      var w: word := tab[i];
      assert i == address + n && w == words[n];
      WordsPutNext(response[..], before, offset, words, n);
      next := StoreWord(response, next, w);
      i, n := i + 1, n + 1;
    }
    WordsPutAll(response[..], before, offset, words);
  }

  lemma UnpackBitsNext(bytes: seq<byte>, n: nat)
    requires n < 8 * |bytes|
    ensures |UnpackBits(bytes, n)| == n
    ensures UnpackBits(bytes, n + 1) == UnpackBits(bytes, n) + [if Bit(bytes[n / 8], n % 8) then 1 else 0]
  {
  }

  lemma UnpackWordsNext(bytes: seq<byte>, n: nat)
    requires 2 * n + 1 < |bytes|
    ensures |UnpackWords(bytes, n)| == n
    ensures UnpackWords(bytes, n + 1) == UnpackWords(bytes, n) + [Word(bytes[2 * n], bytes[2 * n + 1])]
  {
  }

  lemma UnpackNothing(bytes: seq<byte>)
    ensures UnpackBits(bytes, 0) == [] && UnpackWords(bytes, 0) == []
  {
  }

  /** n cells of a table have been set from bits. */
  ghost predicate BitsSet(dest: seq<byte>, before: seq<byte>, address: nat, tab: seq<byte>, n: nat) {
    n <= 8 * |tab| && address + n <= |before| && dest == Splice(before, address, UnpackBits(tab, n))
  }

  lemma BitsSetNext(dest: seq<byte>, before: seq<byte>, address: nat, tab: seq<byte>, m: nat, shift: nat)
    requires BitsSet(dest, before, address, tab, 8 * m + shift) && m < |tab| && shift < 8
    requires address + 8 * m + shift < |before|
    ensures |dest| == |before|
    ensures BitsSet(dest[address + 8 * m + shift := if And(tab[m], Shl(1, shift)) != 0 then 1 else 0],
                    before, address, tab, 8 * m + shift + 1)
  {
    var n := 8 * m + shift;
    assert n / 8 == m && n % 8 == shift;
    UnpackBitsNext(tab, n);
    OneShifted(shift);
    MaskBit(tab[m], shift);
    SpliceNext(before, address, UnpackBits(tab, n), if Bit(tab[m], shift) then 1 else 0);
    hide UnpackBits, Splice, Bit, And, Shl;
  }

  lemma BitsSetNone(before: seq<byte>, address: nat, tab: seq<byte>)
    requires address <= |before|
    ensures BitsSet(before, before, address, tab, 0)
  {
    UnpackNothing(tab);
    SpliceNothing(before, address);
  }

  lemma BitsSetAll(dest: seq<byte>, before: seq<byte>, address: nat, tab: seq<byte>, n: nat)
    requires BitsSet(dest, before, address, tab, n)
    ensures n <= 8 * |tab| && address + n <= |before| && dest == Splice(before, address, UnpackBits(tab, n))
  {
  }

  /** The byte of a cell, as the code finds it. */
  lemma ByteOfCell(nb: nat, m: nat, shift: nat)
    requires 8 * m + shift < nb && shift < 8
    ensures (8 * m + shift) / 8 == m < Bytes(nb)
    ensures (shift + 1) % 8 == if shift == 7 then 0 else shift + 1
  {
  }

  /** Sets the cells of a table from the bits of the bytes at an offset. */
  method SetBitsFromBytes(dest: array<byte>, address: nat, nb: nat, bytes: array<byte>, offset: nat)
    requires address + nb <= dest.Length && offset + Bytes(nb) <= bytes.Length && dest != bytes
    modifies dest
    ensures nb <= 8 * |bytes[offset..]|
    ensures dest[..] == Splice(old(dest[..]), address, UnpackBits(bytes[offset..], nb))
  {
    ghost var tab, before, m: nat := bytes[offset..], dest[..], 0;
    var i, shift: nat := address, 0;
    BitsSetNone(before, address, tab);
    hide *;
    while i < address + nb
      invariant i == address + 8 * m + shift <= address + nb && shift < 8
      invariant BitsSet(dest[..], before, address, tab, 8 * m + shift)
    {
      var k := i - address;
      ByteOfCell(nb, m, shift);
      var b: byte := bytes[offset + k / 8];
      assert b == tab[m];
      BitsSetNext(dest[..], before, address, tab, m, shift);
      Store(dest, i, if And(b, Shl(1, shift)) != 0 then 1 else 0);
      if shift == 7 {
        m := m + 1;
      }
      shift := (shift + 1) % 8;
      i := i + 1;
    }
    BitsSetAll(dest[..], before, address, tab, nb);
  }

  ghost predicate WordsSet(dest: seq<word>, before: seq<word>, address: nat, tab: seq<byte>, n: nat) {
    2 * n <= |tab| && address + n <= |before| && dest == Splice(before, address, UnpackWords(tab, n))
  }

  lemma WordsSetNext(dest: seq<word>, before: seq<word>, address: nat, tab: seq<byte>, n: nat)
    requires WordsSet(dest, before, address, tab, n) && 2 * n + 1 < |tab| && address + n < |before|
    ensures |dest| == |before|
    ensures WordsSet(dest[address + n := Word(tab[2 * n], tab[2 * n + 1])], before, address, tab, n + 1)
  {
    UnpackWordsNext(tab, n);
    SpliceNext(before, address, UnpackWords(tab, n), Word(tab[2 * n], tab[2 * n + 1]));
    hide UnpackWords, Splice, Word;
  }

  lemma WordsSetNone(before: seq<word>, address: nat, tab: seq<byte>)
    requires address <= |before|
    ensures WordsSet(before, before, address, tab, 0)
  {
    UnpackNothing(tab);
    SpliceNothing(before, address);
  }

  lemma WordsSetAll(dest: seq<word>, before: seq<word>, address: nat, tab: seq<byte>, n: nat)
    requires WordsSet(dest, before, address, tab, n)
    ensures 2 * n <= |tab| && address + n <= |before| && dest == Splice(before, address, UnpackWords(tab, n))
  {
  }

  /** Sets registers from pairs of bytes at an offset. */
  method SetRegistersFromBytes(dest: array<word>, address: nat, nb: nat, bytes: array<byte>, offset: nat)
    requires address + nb <= dest.Length && offset + 2 * nb <= bytes.Length && (dest as object) != bytes
    modifies dest
    ensures dest[..] == Splice(old(dest[..]), address, UnpackWords(bytes[offset..], nb))
  {
    ghost var tab, before, n: nat := bytes[offset..], dest[..], 0;
    var i, j := address, 0;
    WordsSetNone(before, address, tab);
    hide *;
    while i < address + nb
      invariant i == address + n <= address + nb && j == 2 * n
      invariant WordsSet(dest[..], before, address, tab, n)
    {
      assert bytes[offset + j] == tab[2 * n] && bytes[offset + j + 1] == tab[2 * n + 1];
      WordsSetNext(dest[..], before, address, tab, n);
      Store(dest, i, Word(bytes[offset + j], bytes[offset + j + 1]));
      i, j, n := i + 1, j + 2, n + 1;
    }
    WordsSetAll(dest[..], before, address, tab, nb);
  }
}

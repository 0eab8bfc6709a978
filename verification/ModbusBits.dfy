/**
 * Packing and unpacking of coils and registers are inverse, for every count.
 */
module ModbusBits {
  import opened Bitwise
  import opened ModbusSpec

  /** Some cell up to the i-th reaches bit i when the cells are or-ed together. */
  ghost predicate Reaches(cells: seq<byte>, i: nat) {
    exists j | 0 <= j < |cells| && j <= i :: Bit(cells[j], i - j)
  }

  lemma {:induction false} GatherBit(cells: seq<byte>, i: nat)
    ensures Bit(Gather(cells), i) <==> Reaches(cells, i)
    decreases |cells|
  {
    if cells == [] {
      ZeroBits(i);
    } else {
      var n := |cells| - 1;
      OrBit(Gather(cells[..n]), Shl(cells[n], n), i);
      ShlBit(cells[n], n, i);
      GatherBit(cells[..n], i);
      ReachesSnoc(cells, i);
    }
  }

  lemma ReachesSnoc(cells: seq<byte>, i: nat)
    requires cells != []
    ensures var n := |cells| - 1; Reaches(cells, i) <==> Reaches(cells[..n], i) || (n <= i && Bit(cells[n], i - n))
  {
    var n := |cells| - 1;
    if Reaches(cells[..n], i) {
      var j :| 0 <= j < n && j <= i && Bit(cells[..n][j], i - j);
      assert Bit(cells[j], i - j);
    }
    if Reaches(cells, i) {
      var j :| 0 <= j < |cells| && j <= i && Bit(cells[j], i - j);
      assert j < n ==> Bit(cells[..n][j], i - j);
    }
  }

  lemma LowByte(a: nat, j: nat)
    requires j < 8
    ensures Bit(a % 256, j) <==> Bit(a, j)
  {
    assert Pow2(8) == 256;
    ShiftIsDivision(a, 8);
    LowBit(a, 8, j);
  }

  /** What a packed bit is, whatever the cells hold: a cell above 1 spills into its successors of the same byte. */
  lemma PackedBit(cells: seq<byte>, k: nat, j: nat)
    requires k < Bytes(|cells|) && j < 8
    ensures Bit(PackBits(cells)[k], j) <==> Reaches(Group(cells, k), j)
  {
    LowByte(Gather(Group(cells, k)), j);
    GatherBit(Group(cells, k), j);
  }

  ghost predicate Clean(cells: seq<byte>) {
    forall i | 0 <= i < |cells| :: cells[i] <= 1
  }

  lemma SmallBit(c: byte, k: nat)
    requires c <= 1
    ensures Bit(c, k) <==> c == 1 && k == 0
  {
    if k > 0 {
      ZeroBits(k - 1);
    }
  }

  /** Clean cells are packed one by one, and the padding bits are 0. */
  lemma PackedCell(cells: seq<byte>, k: nat, j: nat)
    requires Clean(cells) && k < Bytes(|cells|) && j < 8
    ensures Bit(PackBits(cells)[k], j) <==> 8 * k + j < |cells| && cells[8 * k + j] == 1
  {
    PackedBit(cells, k, j);
    var g := Group(cells, k);
    forall i | 0 <= i < |g| && i <= j
      ensures Bit(g[i], j - i) <==> i == j && g[j] == 1
    {
      SmallBit(g[i], j - i);
    }
    if 8 * k + j < |cells| {
      assert g[j] == cells[8 * k + j];
    }
  }

  lemma UnpackPack(cells: seq<byte>, tail: seq<byte>)
    requires Clean(cells)
    ensures UnpackBits(PackBits(cells) + tail, |cells|) == cells
  {
    var bytes := PackBits(cells) + tail;
    forall i | 0 <= i < |cells|
      ensures UnpackBits(bytes, |cells|)[i] == cells[i]
    {
      assert bytes[i / 8] == PackBits(cells)[i / 8];
      PackedCell(cells, i / 8, i % 8);
    }
  }

  lemma FlagsClean(data: seq<byte>)
    ensures Clean(Flags(data))
  {
  }

  lemma UnpackClean(bytes: seq<byte>, n: nat)
    requires n <= 8 * |bytes|
    ensures Clean(UnpackBits(bytes, n))
  {
  }

  /** Cells come back from the wire exactly when none is above 1. */
  lemma UnpackPackExactly(cells: seq<byte>, tail: seq<byte>)
    ensures UnpackBits(PackBits(cells) + tail, |cells|) == cells <==> Clean(cells)
  {
    UnpackClean(PackBits(cells) + tail, |cells|);
    if Clean(cells) {
      UnpackPack(cells, tail);
    }
  }

  lemma UnpackPackWords(words: seq<word>, tail: seq<byte>)
    ensures UnpackWords(PackWords(words) + tail, |words|) == words
  {
    var bytes := PackWords(words) + tail;
    forall i | 0 <= i < |words|
      ensures UnpackWords(bytes, |words|)[i] == words[i]
    {
      assert bytes[2 * i] == Hi(words[i]) && bytes[2 * i + 1] == Lo(words[i]);
    }
  }

  /** The other way round: the slave's bits, packed again, are the client's bytes with the padding cleared. */
  lemma PackUnpack(bytes: seq<byte>, n: nat, k: nat, j: nat)
    requires n <= 8 * |bytes| && k < Bytes(n) && j < 8
    ensures Bit(PackBits(UnpackBits(bytes, n))[k], j) <==> 8 * k + j < n && Bit(bytes[k], j)
  {
    UnpackClean(bytes, n);
    PackedCell(UnpackBits(bytes, n), k, j);
  }
}

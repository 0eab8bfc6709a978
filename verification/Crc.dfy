/**
 * The RTU checksum: a table-driven CRC over two bytes of state, its bit-by-bit reference, and what a
 * receiver that checks it can rely on.
 */
module Crc {

  const INVALID_CRC := -0x10

  /** Entry i of a row of sixteen, by the low four bits of i. */
  function Pick(i: bv8,
                v0: bv8, v1: bv8, v2: bv8, v3: bv8, v4: bv8, v5: bv8, v6: bv8, v7: bv8,
                v8: bv8, v9: bv8, vA: bv8, vB: bv8, vC: bv8, vD: bv8, vE: bv8, vF: bv8): bv8
  {
    if i & 8 == 0 then
      if i & 4 == 0 then
        (if i & 2 == 0 then (if i & 1 == 0 then v0 else v1) else (if i & 1 == 0 then v2 else v3))
      else
        (if i & 2 == 0 then (if i & 1 == 0 then v4 else v5) else (if i & 1 == 0 then v6 else v7))
    else
      if i & 4 == 0 then
        (if i & 2 == 0 then (if i & 1 == 0 then v8 else v9) else (if i & 1 == 0 then vA else vB))
      else
        (if i & 2 == 0 then (if i & 1 == 0 then vC else vD) else (if i & 1 == 0 then vE else vF))
  }

  /** The two lookup tables, sixteen rows of sixteen. */
  function TableHi(i: bv8): bv8 {
    Pick(i >> 4,
      Pick(i, 0x00, 0xC1, 0x81, 0x40, 0x01, 0xC0, 0x80, 0x41, 0x01, 0xC0, 0x80, 0x41, 0x00, 0xC1, 0x81, 0x40),
      Pick(i, 0x01, 0xC0, 0x80, 0x41, 0x00, 0xC1, 0x81, 0x40, 0x00, 0xC1, 0x81, 0x40, 0x01, 0xC0, 0x80, 0x41),
      Pick(i, 0x01, 0xC0, 0x80, 0x41, 0x00, 0xC1, 0x81, 0x40, 0x00, 0xC1, 0x81, 0x40, 0x01, 0xC0, 0x80, 0x41),
      Pick(i, 0x00, 0xC1, 0x81, 0x40, 0x01, 0xC0, 0x80, 0x41, 0x01, 0xC0, 0x80, 0x41, 0x00, 0xC1, 0x81, 0x40),
      Pick(i, 0x01, 0xC0, 0x80, 0x41, 0x00, 0xC1, 0x81, 0x40, 0x00, 0xC1, 0x81, 0x40, 0x01, 0xC0, 0x80, 0x41),
      Pick(i, 0x00, 0xC1, 0x81, 0x40, 0x01, 0xC0, 0x80, 0x41, 0x01, 0xC0, 0x80, 0x41, 0x00, 0xC1, 0x81, 0x40),
      Pick(i, 0x00, 0xC1, 0x81, 0x40, 0x01, 0xC0, 0x80, 0x41, 0x01, 0xC0, 0x80, 0x41, 0x00, 0xC1, 0x81, 0x40),
      Pick(i, 0x01, 0xC0, 0x80, 0x41, 0x00, 0xC1, 0x81, 0x40, 0x00, 0xC1, 0x81, 0x40, 0x01, 0xC0, 0x80, 0x41),
      Pick(i, 0x01, 0xC0, 0x80, 0x41, 0x00, 0xC1, 0x81, 0x40, 0x00, 0xC1, 0x81, 0x40, 0x01, 0xC0, 0x80, 0x41),
      Pick(i, 0x00, 0xC1, 0x81, 0x40, 0x01, 0xC0, 0x80, 0x41, 0x01, 0xC0, 0x80, 0x41, 0x00, 0xC1, 0x81, 0x40),
      Pick(i, 0x00, 0xC1, 0x81, 0x40, 0x01, 0xC0, 0x80, 0x41, 0x01, 0xC0, 0x80, 0x41, 0x00, 0xC1, 0x81, 0x40),
      Pick(i, 0x01, 0xC0, 0x80, 0x41, 0x00, 0xC1, 0x81, 0x40, 0x00, 0xC1, 0x81, 0x40, 0x01, 0xC0, 0x80, 0x41),
      Pick(i, 0x00, 0xC1, 0x81, 0x40, 0x01, 0xC0, 0x80, 0x41, 0x01, 0xC0, 0x80, 0x41, 0x00, 0xC1, 0x81, 0x40),
      Pick(i, 0x01, 0xC0, 0x80, 0x41, 0x00, 0xC1, 0x81, 0x40, 0x00, 0xC1, 0x81, 0x40, 0x01, 0xC0, 0x80, 0x41),
      Pick(i, 0x01, 0xC0, 0x80, 0x41, 0x00, 0xC1, 0x81, 0x40, 0x00, 0xC1, 0x81, 0x40, 0x01, 0xC0, 0x80, 0x41),
      Pick(i, 0x00, 0xC1, 0x81, 0x40, 0x01, 0xC0, 0x80, 0x41, 0x01, 0xC0, 0x80, 0x41, 0x00, 0xC1, 0x81, 0x40))
  }

  function TableLo(i: bv8): bv8 {
    Pick(i >> 4,
      Pick(i, 0x00, 0xC0, 0xC1, 0x01, 0xC3, 0x03, 0x02, 0xC2, 0xC6, 0x06, 0x07, 0xC7, 0x05, 0xC5, 0xC4, 0x04),
      Pick(i, 0xCC, 0x0C, 0x0D, 0xCD, 0x0F, 0xCF, 0xCE, 0x0E, 0x0A, 0xCA, 0xCB, 0x0B, 0xC9, 0x09, 0x08, 0xC8),
      Pick(i, 0xD8, 0x18, 0x19, 0xD9, 0x1B, 0xDB, 0xDA, 0x1A, 0x1E, 0xDE, 0xDF, 0x1F, 0xDD, 0x1D, 0x1C, 0xDC),
      Pick(i, 0x14, 0xD4, 0xD5, 0x15, 0xD7, 0x17, 0x16, 0xD6, 0xD2, 0x12, 0x13, 0xD3, 0x11, 0xD1, 0xD0, 0x10),
      Pick(i, 0xF0, 0x30, 0x31, 0xF1, 0x33, 0xF3, 0xF2, 0x32, 0x36, 0xF6, 0xF7, 0x37, 0xF5, 0x35, 0x34, 0xF4),
      Pick(i, 0x3C, 0xFC, 0xFD, 0x3D, 0xFF, 0x3F, 0x3E, 0xFE, 0xFA, 0x3A, 0x3B, 0xFB, 0x39, 0xF9, 0xF8, 0x38),
      Pick(i, 0x28, 0xE8, 0xE9, 0x29, 0xEB, 0x2B, 0x2A, 0xEA, 0xEE, 0x2E, 0x2F, 0xEF, 0x2D, 0xED, 0xEC, 0x2C),
      Pick(i, 0xE4, 0x24, 0x25, 0xE5, 0x27, 0xE7, 0xE6, 0x26, 0x22, 0xE2, 0xE3, 0x23, 0xE1, 0x21, 0x20, 0xE0),
      Pick(i, 0xA0, 0x60, 0x61, 0xA1, 0x63, 0xA3, 0xA2, 0x62, 0x66, 0xA6, 0xA7, 0x67, 0xA5, 0x65, 0x64, 0xA4),
      Pick(i, 0x6C, 0xAC, 0xAD, 0x6D, 0xAF, 0x6F, 0x6E, 0xAE, 0xAA, 0x6A, 0x6B, 0xAB, 0x69, 0xA9, 0xA8, 0x68),
      Pick(i, 0x78, 0xB8, 0xB9, 0x79, 0xBB, 0x7B, 0x7A, 0xBA, 0xBE, 0x7E, 0x7F, 0xBF, 0x7D, 0xBD, 0xBC, 0x7C),
      Pick(i, 0xB4, 0x74, 0x75, 0xB5, 0x77, 0xB7, 0xB6, 0x76, 0x72, 0xB2, 0xB3, 0x73, 0xB1, 0x71, 0x70, 0xB0),
      Pick(i, 0x50, 0x90, 0x91, 0x51, 0x93, 0x53, 0x52, 0x92, 0x96, 0x56, 0x57, 0x97, 0x55, 0x95, 0x94, 0x54),
      Pick(i, 0x9C, 0x5C, 0x5D, 0x9D, 0x5F, 0x9F, 0x9E, 0x5E, 0x5A, 0x9A, 0x9B, 0x5B, 0x99, 0x59, 0x58, 0x98),
      Pick(i, 0x88, 0x48, 0x49, 0x89, 0x4B, 0x8B, 0x8A, 0x4A, 0x4E, 0x8E, 0x8F, 0x4F, 0x8D, 0x4D, 0x4C, 0x8C),
      Pick(i, 0x44, 0x84, 0x85, 0x45, 0x87, 0x47, 0x46, 0x86, 0x82, 0x42, 0x43, 0x83, 0x41, 0x81, 0x80, 0x40))
  }

  // ---- The reference: one bit at a time ------------------------------------------------------------

  /** Shift right; a bit shifted out folds the polynomial back in. */
  function BitStep(s: bv16): bv16 {
    if s & 1 == 1 then (s >> 1) ^ 0xA001 else s >> 1
  }

  /** The same step as one formula. */
  function Shift1(s: bv16): bv16 {
    (s >> 1) ^ ((0 - (s & 1)) & 0xA001)
  }

  function Shift8(s: bv16): bv16 {
    Shift1(Shift1(Shift1(Shift1(Shift1(Shift1(Shift1(Shift1(s))))))))
  }

  function Xor8(a: bv8, b: bv8): bv8 { a ^ b }

  function Xor16(a: bv16, b: bv16): bv16 { a ^ b }

  function ByteStep(s: bv16, b: bv8): bv16 {
    Shift8(Xor16(s, b as bv16))
  }

  function Feed(s: bv16, msg: seq<bv8>): bv16 {
    if msg == [] then s else ByteStep(Feed(s, msg[..|msg| - 1]), msg[|msg| - 1])
  }

  function Swap(s: bv16): bv16 {
    (s << 8) | (s >> 8)
  }

  function ShiftN(s: bv16, n: nat): bv16 {
    if n == 0 then s else Shift1(ShiftN(s, n - 1))
  }

  lemma ShiftEight(s: bv16)
    ensures ShiftN(s, 8) == Shift8(s)
  {
    hide Shift1;
    assert ShiftN(s, 1) == Shift1(s);
    assert ShiftN(s, 3) == Shift1(Shift1(ShiftN(s, 1)));
    assert ShiftN(s, 5) == Shift1(Shift1(ShiftN(s, 3)));
    assert ShiftN(s, 7) == Shift1(Shift1(ShiftN(s, 5)));
  }

  lemma BitStepIsShift1(s: bv16)
    ensures BitStep(s) == Shift1(s)
  {
    if s & 1 == 1 {
      assert (0 - (s & 1)) & 0xA001 == 0xA001;
    } else {
      assert s & 1 == 0;
    }
  }

  /** The reference's own wording of the step, with its mask. */
  method MasterBit(s: bv16) returns (sum: bv16)
    ensures sum == Shift1(s)
  {
    BitStepIsShift1(s);
    var carry := 1 == 1 & s;
    sum := 0x7FFF & (s >> 1);
    assert sum == s >> 1;
    if carry {
      sum := sum ^ 0xA001;
    } else {
      assert s & 1 == 0;
    }
  }

  lemma FeedNext(s: bv16, msg: seq<bv8>, n: nat)
    requires n < |msg|
    ensures Feed(s, msg[..n + 1]) == ByteStep(Feed(s, msg[..n]), msg[n])
  {
    assert msg[..n + 1][..n] == msg[..n];
  }

  lemma ByteStepIs(s: bv16, b: bv8)
    ensures ByteStep(s, b) == ShiftN(Xor16(s, b as bv16), 8)
  {
    hide Shift8, ShiftN, Xor16;
    ShiftEight(Xor16(s, b as bv16));
  }

  lemma ShiftNStep(s: bv16, n: nat)
    ensures ShiftN(s, 0) == s && ShiftN(s, n + 1) == Shift1(ShiftN(s, n))
  {
    hide Shift1;
  }

  /** The reference's loop over the bits of one byte. */
  method MasterByte(s: bv16, b: bv8) returns (sum: bv16)
    ensures sum == ByteStep(s, b)
  {
    sum := s ^ (b as bv16);
    ghost var start := sum;
    assert start == Xor16(s, b as bv16);
    hide *;
    ByteStepIs(s, b);
    ShiftNStep(start, 0);
    for k := 0 to 8
      invariant sum == ShiftN(start, k)
    {
      ShiftNStep(start, k);
      sum := MasterBit(sum);
    }
  }

  /** The reference loop of the serial master. */
  method MasterCrc(pdu: seq<bv8>) returns (sum: bv16)
    ensures sum == Feed(0xFFFF, pdu)
  {
    sum := 0xFFFF;
    assert pdu[..0] == [];
    hide ByteStep;
    for n := 0 to |pdu|
      invariant sum == Feed(0xFFFF, pdu[..n])
    {
      FeedNext(0xFFFF, pdu, n);
      sum := MasterByte(sum, pdu[n]);
    }
    assert pdu[..|pdu|] == pdu;
  }

  // ---- The table form ------------------------------------------------------------------------------

  function LowByte(s: bv16): bv8 {
    (0xFF & s) as bv8
  }

  function HighByte(s: bv16): bv8 {
    (s >> 8) as bv8
  }

  lemma TableHiIs(i: bv8)
    ensures TableHi(i) == LowByte(Shift8(i as bv16))
  {
  }

  lemma TableLoIs(i: bv8)
    ensures TableLo(i) == HighByte(Shift8(i as bv16))
  {
  }

  /** The register as the table form keeps it: the byte called high is the register's low byte. */
  function Pack(hi: bv8, lo: bv8): bv16 {
    ((lo as bv16) << 8) | (hi as bv16)
  }

  lemma PackXor(hi: bv8, lo: bv8, b: bv8)
    ensures Xor16(Pack(hi, lo), b as bv16) == Pack(Xor8(hi, b), lo)
  {
  }

  lemma PackSplit(lo: bv8, s: bv16)
    ensures Pack(Xor8(lo, LowByte(s)), HighByte(s)) == Xor16(lo as bv16, s)
  {
  }

  lemma Shift8Splits(hi: bv8, lo: bv8)
    ensures Shift8(Pack(hi, lo)) == Xor16(lo as bv16, Shift8(hi as bv16))
  {
  }

  /** One table lookup does the work of eight shifts. */
  lemma TableStep(hi: bv8, lo: bv8, b: bv8)
    ensures var i := Xor8(hi, b);
      Pack(Xor8(lo, TableHi(i)), TableLo(i)) == ByteStep(Pack(hi, lo), b)
  {
    hide Shift8, TableHi, TableLo, Pack, Xor8, Xor16, LowByte, HighByte;
    var i := Xor8(hi, b);
    TableHiIs(i);
    TableLoIs(i);
    PackXor(hi, lo, b);
    Shift8Splits(i, lo);
    PackSplit(lo, Shift8(i as bv16));
  }

  /** One turn of the table loop. */
  method TableByte(hi: bv8, lo: bv8, b: bv8) returns (newHi: bv8, newLo: bv8)
    ensures Pack(newHi, newLo) == ByteStep(Pack(hi, lo), b)
  {
    hide ByteStep, TableHi, TableLo, Pack;
    TableStep(hi, lo, b);
    var i := hi ^ b;
    newHi := lo ^ TableHi(i);
    newLo := TableLo(i);
  }

  /** A 16-bit value from its high and low byte. */
  function Join(high: bv8, low: bv8): bv16 {
    ((high as bv16) << 8) | (low as bv16)
  }

  lemma JoinIsSwap(hi: bv8, lo: bv8)
    ensures Join(hi, lo) == Swap(Pack(hi, lo))
  {
  }

  method Crc16(buffer: seq<bv8>) returns (crc: bv16)
    requires |buffer| < 0x1_0000
    ensures crc == Swap(Feed(0xFFFF, buffer))
  {
    hide ByteStep, Pack, Join, Swap;
    var hi: bv8, lo: bv8 := 0xFF, 0xFF;
    PackStart();
    var n := 0;
    while n < |buffer|
      invariant n <= |buffer|
      invariant Pack(hi, lo) == Feed(0xFFFF, buffer[..n])
    {
      FeedNext(0xFFFF, buffer, n);
      hi, lo := TableByte(hi, lo, buffer[n]);
      n := n + 1;
    }
    assert buffer[..n] == buffer;
    JoinIsSwap(hi, lo);
    return Join(hi, lo);
  }

  lemma PackStart()
    ensures Pack(0xFF, 0xFF) == 0xFFFF
  {
  }

  /** A message with its checksum, the register's low byte first. */
  function Frame(msg: seq<bv8>): seq<bv8> {
    msg + [LowByte(Feed(0xFFFF, msg)), HighByte(Feed(0xFFFF, msg))]
  }

  /** Both senders put the same two bytes after a message: modbus_send splits the swapped register
      high byte first, the serial master its own register low byte first. */
  lemma SameBytesOnTheWire(sum: bv16)
    ensures HighByte(Swap(sum)) == LowByte(sum) && LowByte(Swap(sum)) == HighByte(sum)
  {
  }

  /** modbus_send puts its checksum behind the query, in place. */
  method SendRtu(query: array<bv8>, n: nat)
    requires n + 2 <= query.Length && n < 0x1_0000
    modifies query
    ensures query[..n + 2] == Frame(old(query[..n])) && query[n + 2..] == old(query[n + 2..])
  {
    hide ByteStep, Swap, LowByte, HighByte;
    ghost var was := query[..];
    var crc := Crc16(query[..n]);
    SameBytesOnTheWire(Feed(0xFFFF, query[..n]));
    query[n] := HighByte(crc);
    query[n + 1] := LowByte(crc);
    assert query[..n] == was[..n];
  }

  /** The serial master puts its own behind slave and data. */
  method MasterTx(slave: bv8, pdu: seq<bv8>) returns (adu: seq<bv8>)
    ensures adu == Frame([slave] + pdu)
  {
    hide ByteStep;
    adu := [slave] + pdu;
    var sum := MasterCrc(adu);
    adu := adu + [LowByte(sum), HighByte(sum)];
  }

  // ---- The receiver's check ------------------------------------------------------------------------

  /** The check holds exactly when the register over the whole frame, checksum included, ends at zero. */
  method CheckCrc16(msg: seq<bv8>) returns (ret: int)
    requires 2 <= |msg| < 0x1_0000
    ensures ret == if Feed(0xFFFF, msg) == 0 then 0 else -16
  {
    hide ByteStep, Join, Swap;
    var n := |msg|;
    var computed := Crc16(msg[..n - 2]);
    var received := Join(msg[n - 2], msg[n - 1]);
    FeedNext(0xFFFF, msg, n - 2);
    FeedNext(0xFFFF, msg, n - 1);
    assert msg[..n] == msg;
    Residue(Feed(0xFFFF, msg[..n - 2]), msg[n - 2], msg[n - 1]);
    if computed == received {
      ret := 0;
    } else {
      ret := INVALID_CRC;
    }
  }

  lemma Residue(s: bv16, a: bv8, b: bv8)
    ensures ByteStep(ByteStep(s, a), b) == 0 <==> Swap(s) == Join(a, b)
  {
    hide Shift8, Xor16, Swap, Join;
    var t := Xor16(s, a as bv16);
    ByteToZero(Shift8(t), b);
    ShiftBack(t, b);
    ShiftedByte(s, a, b);
  }

  lemma ShiftToZero(t: bv16)
    ensures Shift8(t) == 0 <==> t == 0
  {
  }

  lemma XorToZero(s: bv16, b: bv8)
    ensures Xor16(s, b as bv16) == 0 <==> s == b as bv16
  {
  }

  lemma ByteToZero(s: bv16, b: bv8)
    ensures ByteStep(s, b) == 0 <==> s == b as bv16
  {
    hide Shift8, Xor16;
    ShiftToZero(Xor16(s, b as bv16));
    XorToZero(s, b);
  }

  function Raised(y: bv8): bv16 { (y as bv16) << 8 }

  /** A register with a clear high byte can only have come from its low byte, eight places up. */
  lemma ShiftBack(t: bv16, y: bv8)
    ensures Shift8(t) == (y as bv16) <==> t == Raised(y)
  {
  }

  lemma ShiftedByte(s: bv16, a: bv8, b: bv8)
    ensures Xor16(s, a as bv16) == Raised(b) <==> Swap(s) == Join(a, b)
  {
    hide Xor16, Raised, Swap, Join, LowByte, HighByte;
    RaisedHalves(s, a, b);
    SwapHalves(s, a, b);
  }

  lemma RaisedHalves(s: bv16, a: bv8, b: bv8)
    ensures Xor16(s, a as bv16) == Raised(b) <==> LowByte(s) == a && HighByte(s) == b
  {
  }

  lemma SwapHalves(s: bv16, a: bv8, b: bv8)
    ensures Swap(s) == Join(a, b) <==> LowByte(s) == a && HighByte(s) == b
  {
    hide Swap, Join, LowByte, HighByte;
    JoinHalves(s);
    JoinParts(a, b);
    SameBytesOnTheWire(s);
  }

  lemma JoinParts(a: bv8, b: bv8)
    ensures HighByte(Join(a, b)) == a && LowByte(Join(a, b)) == b
  {
  }

  lemma JoinHalves(s: bv16)
    ensures Join(LowByte(s), HighByte(s)) == Swap(s)
  {
  }

  /** The six bytes that ask device 1 for its first holding register, and the two that go behind them. */
  lemma KnownFrame()
    ensures Frame([0x01, 0x03, 0x00, 0x00, 0x00, 0x01]) == [0x01, 0x03, 0x00, 0x00, 0x00, 0x01, 0x84, 0x0A]
  {
    KnownSteps();
    hide ByteStep;
    var m: seq<bv8> := [0x01, 0x03, 0x00, 0x00, 0x00, 0x01];
    assert m[..0] == [] && m[..6] == m;
    FeedNext(0xFFFF, m, 0);
    FeedNext(0xFFFF, m, 1);
    FeedNext(0xFFFF, m, 2);
    FeedNext(0xFFFF, m, 3);
    FeedNext(0xFFFF, m, 4);
    FeedNext(0xFFFF, m, 5);
  }

  lemma KnownSteps()
    ensures ByteStep(0xFFFF, 0x01) == 0x807E
    ensures ByteStep(0x807E, 0x03) == 0x2140
    ensures ByteStep(0x2140, 0x00) == 0xF020
    ensures ByteStep(0xF020, 0x00) == 0xD8F1
    ensures ByteStep(0xD8F1, 0x00) == 0x8419
    ensures ByteStep(0x8419, 0x01) == 0x0A84
  {
  }

  /** A frame built by either sender passes. */
  lemma FrameIsValid(msg: seq<bv8>)
    ensures Feed(0xFFFF, Frame(msg)) == 0
  {
    hide ByteStep, Join, Swap, LowByte, HighByte;
    var f, s := Frame(msg), Feed(0xFFFF, msg);
    FeedNext(0xFFFF, f, |msg|);
    FeedNext(0xFFFF, f, |msg| + 1);
    assert f[..|msg|] == msg && f[..|f|] == f;
    Residue(s, f[|msg|], f[|msg| + 1]);
    JoinHalves(s);
  }

  // ---- Corruption ----------------------------------------------------------------------------------

  /** The frame with the bits of e flipped. */
  function Corrupt(f: seq<bv8>, e: seq<bv8>): seq<bv8>
    requires |f| == |e|
  {
    seq(|f|, i requires 0 <= i < |f| => Xor8(f[i], e[i]))
  }

  lemma Shift1Linear(x: bv16, y: bv16)
    ensures Shift1(Xor16(x, y)) == Xor16(Shift1(x), Shift1(y))
  {
  }

  lemma Shift8Linear(x: bv16, y: bv16)
    ensures Shift8(Xor16(x, y)) == Xor16(Shift8(x), Shift8(y))
  {
    hide Shift1, Xor16;
    ShiftEight(x);
    ShiftEight(y);
    ShiftEight(Xor16(x, y));
    ShiftNLinear(x, y, 8);
  }

  lemma {:induction false} ShiftNLinear(x: bv16, y: bv16, n: nat)
    ensures ShiftN(Xor16(x, y), n) == Xor16(ShiftN(x, n), ShiftN(y, n))
  {
    hide Shift1, Xor16;
    if n > 0 {
      ShiftNLinear(x, y, n - 1);
      Shift1Linear(ShiftN(x, n - 1), ShiftN(y, n - 1));
    }
  }

  lemma ByteStepLinear(s: bv16, t: bv16, a: bv8, b: bv8)
    ensures ByteStep(Xor16(s, t), Xor8(a, b)) == Xor16(ByteStep(s, a), ByteStep(t, b))
  {
    hide Shift8, Xor16, Xor8;
    XorShuffle(s, t, a, b);
    Shift8Linear(Xor16(s, a as bv16), Xor16(t, b as bv16));
  }

  lemma XorShuffle(s: bv16, t: bv16, a: bv8, b: bv8)
    ensures Xor16(Xor16(s, t), Xor8(a, b) as bv16) == Xor16(Xor16(s, a as bv16), Xor16(t, b as bv16))
  {
  }

  lemma XorZero(s: bv16)
    ensures Xor16(s, 0) == s && Xor16(0, s) == s
  {
  }

  lemma {:induction false} FeedLinear(s: bv16, f: seq<bv8>, e: seq<bv8>)
    requires |f| == |e|
    ensures Feed(s, Corrupt(f, e)) == Xor16(Feed(s, f), Feed(0, e))
  {
    hide ByteStep, Xor16, Xor8;
    if f == [] {
      XorZero(s);
    } else {
      var n := |f| - 1;
      FeedLinear(s, f[..n], e[..n]);
      assert Corrupt(f, e)[..n] == Corrupt(f[..n], e[..n]);
      ByteStepLinear(Feed(s, f[..n]), Feed(0, e[..n]), f[n], e[n]);
    }
  }

  /** Exactly which received frames pass in place of a valid one: those whose difference, fed through
      a cleared register, ends at zero. */
  lemma UndetectedExactly(f: seq<bv8>, g: seq<bv8>)
    requires |f| == |g| && Feed(0xFFFF, f) == 0
    ensures Feed(0xFFFF, g) == 0 <==> Feed(0, Corrupt(f, g)) == 0
  {
    var e := Corrupt(f, g);
    assert Corrupt(f, e) == g by {
      forall i | 0 <= i < |f|
        ensures Xor8(f[i], e[i]) == g[i]
      {
        XorBack(f[i], g[i]);
      }
    }
    hide ByteStep, Xor16, Xor8;
    FeedLinear(0xFFFF, f, e);
    XorZero(Feed(0, e));
  }

  lemma XorBack(a: bv8, b: bv8)
    ensures Xor8(a, Xor8(a, b)) == b
  {
  }

  lemma ZeroByteKeeps(s: bv16)
    ensures ByteStep(s, 0) == 0 <==> s == 0
  {
  }

  lemma {:induction false} FeedZeros(s: bv16, e: seq<bv8>, n: nat)
    requires n <= |e| && (forall i | n <= i < |e| :: e[i] == 0)
    ensures Feed(s, e) == 0 <==> Feed(s, e[..n]) == 0
  {
    hide ByteStep;
    if n < |e| {
      var m := |e| - 1;
      FeedZeros(s, e[..m], n);
      assert e[..m][..n] == e[..n];
      ZeroByteKeeps(Feed(s, e[..m]));
    } else {
      assert e[..n] == e;
    }
  }

  /** The k lowest bits. */
  function Mask(k: nat): bv8
    requires k < 8
  {
    match k
    case 0 => 0x00 case 1 => 0x01 case 2 => 0x03 case 3 => 0x07
    case 4 => 0x0F case 5 => 0x1F case 6 => 0x3F case 7 => 0x7F
  }

  /** The difference touches only the sixteen bits that start at bit k of byte p, in sending order. */
  predicate InBurst(e: seq<bv8>, p: nat, k: nat)
    requires k < 8
  {
    forall i | 0 <= i < |e| && !InWindow(e[i], i - p, k) :: e[i] == 0
  }

  predicate InWindow(b: bv8, i: int, k: nat)
    requires k < 8
  {
    i == 1 || (i == 0 && b & Mask(k) == 0) || (i == 2 && b & !Mask(k) == 0)
  }

  function Three(x: bv8, y: bv8, z: bv8): bv16 {
    ByteStep(ByteStep(ByteStep(0, x), y), z)
  }

  /** Sixteen consecutive bits fill the register one to one. */
  lemma SixteenBits(x: bv8, y: bv8, z: bv8, k: nat)
    requires k < 8 && x & Mask(k) == 0 && z & !Mask(k) == 0 && Three(x, y, z) == 0
    ensures x == 0 && y == 0 && z == 0
  {
    match k {
      case 0 => case 1 => case 2 => case 3 => case 4 => case 5 => case 6 => case 7 =>
    }
  }

  lemma ClearStays(e: seq<bv8>, n: nat)
    requires n <= |e| && (forall i | 0 <= i < n :: e[i] == 0)
    ensures Feed(0, e[..n]) == 0
  {
    hide ByteStep;
    FeedZeros(0, e[..n], 0);
  }

  /** A burst of at most sixteen bits, anywhere in a frame of any length, is noticed. */
  lemma BurstDetected(f: seq<bv8>, g: seq<bv8>, p: nat, k: nat)
    requires |f| == |g| && f != g && Feed(0xFFFF, f) == 0
    requires k < 8 && InBurst(Corrupt(f, g), p, k)
    ensures Feed(0xFFFF, g) != 0
  {
    hide ByteStep, Mask, Xor8, Three;
    UndetectedExactly(f, g);
    var e := Corrupt(f, g);
    var d :| 0 <= d < |f| && f[d] != g[d];
    XorNonZero(f[d], g[d]);
    assert InWindow(e[d], d - p, k);
    ClearStays(e, p);
    if Feed(0, e) == 0 {
      var x := e[p];
      var y := if p + 1 < |e| then e[p + 1] else 0;
      var z := if p + 2 < |e| then e[p + 2] else 0;
      WindowFeed(e, p);
      ZeroInMask(k);
      assert x & Mask(k) == 0 && z & !Mask(k) == 0 by {
        assert InWindow(x, 0, k) || x == 0;
        assert p + 2 < |e| ==> InWindow(z, 2, k) || z == 0;
      }
      SixteenBits(x, y, z, k);
      assert false;
    }
  }

  lemma XorNonZero(a: bv8, b: bv8)
    requires a != b
    ensures Xor8(a, b) != 0
  {
  }

  lemma ZeroInMask(k: nat)
    requires k < 8
    ensures 0 & Mask(k) == 0 && 0 & !Mask(k) == 0
  {
  }

  /** A register that ends at zero with nothing outside the window was zero right after the window. */
  lemma WindowFeed(e: seq<bv8>, p: nat)
    requires p < |e| && Feed(0, e[..p]) == 0 && Feed(0, e) == 0
    requires forall i | p + 2 < i < |e| :: e[i] == 0
    ensures Three(e[p], if p + 1 < |e| then e[p + 1] else 0, if p + 2 < |e| then e[p + 2] else 0) == 0
  {
    hide ByteStep;
    assert e[..|e|] == e;
    FeedNext(0, e, p);
    if p + 1 < |e| { FeedNext(0, e, p + 1); }
    if p + 2 < |e| {
      FeedNext(0, e, p + 2);
      FeedZeros(0, e, p + 3);
    }
    ZeroByteKeeps(ByteStep(0, e[p]));
    ZeroByteKeeps(ByteStep(ByteStep(0, e[p]), 0));
    if p + 1 < |e| { ZeroByteKeeps(ByteStep(ByteStep(0, e[p]), e[p + 1])); }
  }

  /** In particular any damage confined to two neighbouring bytes is noticed. */
  lemma TwoBytesDetected(f: seq<bv8>, g: seq<bv8>, p: nat)
    requires |f| == |g| && f != g && Feed(0xFFFF, f) == 0
    requires forall i | 0 <= i < |f| && i != p && i != p + 1 :: f[i] == g[i]
    ensures Feed(0xFFFF, g) != 0
  {
    hide ByteStep;
    var e := Corrupt(f, g);
    forall i | 0 <= i < |e|
      ensures i == p || i == p + 1 || e[i] == 0
      ensures e[i] & Mask(0) == 0
    {
      if i != p && i != p + 1 { XorSame(f[i]); }
    }
    BurstDetected(f, g, p, 0);
  }

  lemma XorSame(a: bv8)
    ensures Xor8(a, a) == 0
  {
  }

  // ---- Odd damage ----------------------------------------------------------------------------------

  function Bit(s: bv16, k: nat): bool
    requires k < 16
  {
    match k
    case 0 => s & 0x0001 != 0 case 1 => s & 0x0002 != 0 case 2 => s & 0x0004 != 0 case 3 => s & 0x0008 != 0
    case 4 => s & 0x0010 != 0 case 5 => s & 0x0020 != 0 case 6 => s & 0x0040 != 0 case 7 => s & 0x0080 != 0
    case 8 => s & 0x0100 != 0 case 9 => s & 0x0200 != 0 case 10 => s & 0x0400 != 0 case 11 => s & 0x0800 != 0
    case 12 => s & 0x1000 != 0 case 13 => s & 0x2000 != 0 case 14 => s & 0x4000 != 0 case 15 => s & 0x8000 != 0
  }

  /** The number of ones among the n lowest bits. */
  function Ones(s: bv16, n: nat): nat
    requires n <= 16
  {
    if n == 0 then 0 else Ones(s, n - 1) + (if Bit(s, n - 1) then 1 else 0)
  }

  function FlippedBits(e: seq<bv8>): nat {
    if e == [] then 0 else FlippedBits(e[..|e| - 1]) + Ones(e[|e| - 1] as bv16, 16)
  }

  lemma BitXor(a: bv16, b: bv16, k: nat)
    requires k < 16
    ensures Bit(Xor16(a, b), k) <==> Bit(a, k) != Bit(b, k)
  {
    match k {
      case 0 => case 1 => case 2 => case 3 => case 4 => case 5 => case 6 => case 7 =>
      case 8 => case 9 => case 10 => case 11 => case 12 => case 13 => case 14 => case 15 =>
    }
  }

  lemma {:induction false} OnesXor(a: bv16, b: bv16, n: nat)
    requires n <= 16
    ensures Ones(Xor16(a, b), n) % 2 == (Ones(a, n) + Ones(b, n)) % 2
  {
    hide *;
    OnesStep(a, n);
    OnesStep(b, n);
    OnesStep(Xor16(a, b), n);
    if n > 0 {
      OnesXor(a, b, n - 1);
      BitXor(a, b, n - 1);
      ParityStep(Ones(Xor16(a, b), n - 1), Ones(a, n - 1), Ones(b, n - 1), Bit(a, n - 1), Bit(b, n - 1));
    }
  }

  function AsOne(b: bool): nat {
    if b then 1 else 0
  }

  lemma OnesStep(s: bv16, n: nat)
    requires n <= 16
    ensures n == 0 ==> Ones(s, n) == 0
    ensures n > 0 ==> Ones(s, n) == Ones(s, n - 1) + AsOne(Bit(s, n - 1))
  {
    hide Bit;
  }

  lemma ParityStep(x: nat, a: nat, b: nat, p: bool, q: bool)
    requires x % 2 == (a + b) % 2
    ensures (x + AsOne(p != q)) % 2 == (a + AsOne(p) + (b + AsOne(q))) % 2
  {
  }

  function Half(s: bv16): bv16 { s >> 1 }

  function Folded(s: bv16): bv16 { (0 - (s & 1)) & 0xA001 }

  lemma Shift1Is(s: bv16)
    ensures Shift1(s) == Xor16(Half(s), Folded(s))
  {
  }

  lemma BitHalf(s: bv16, k: nat)
    requires k < 16
    ensures Bit(Half(s), k) == (k < 15 && Bit(s, k + 1))
  {
    match k {
      case 0 => case 1 => case 2 => case 3 => case 4 => case 5 => case 6 => case 7 =>
      case 8 => case 9 => case 10 => case 11 => case 12 => case 13 => case 14 => case 15 =>
    }
  }

  lemma {:induction false} OnesHalf(s: bv16, n: nat)
    requires n <= 15
    ensures Ones(Half(s), n) + (if Bit(s, 0) then 1 else 0) == Ones(s, n + 1)
  {
    hide Bit, Half;
    if n > 0 {
      OnesHalf(s, n - 1);
      BitHalf(s, n - 1);
    }
  }

  lemma FoldedCases(s: bv16)
    ensures Folded(s) == if Bit(s, 0) then 0xA001 else 0
  {
  }

  /** The polynomial has three low terms, zero has none. */
  lemma PolynomialOnes()
    ensures Ones(0xA001, 16) == 3 && Ones(0, 16) == 0
  {
    assert Ones(0xA001, 4) == 1 && Ones(0xA001, 8) == 1 && Ones(0xA001, 12) == 1;
    assert Ones(0, 4) == 0 && Ones(0, 8) == 0 && Ones(0, 12) == 0;
  }

  /** The bit shifted out is made up for by the polynomial folded in. */
  lemma Shift1Parity(s: bv16)
    ensures Ones(Shift1(s), 16) % 2 == Ones(s, 16) % 2
  {
    hide Bit, Half, Folded, Shift1, Xor16;
    Shift1Is(s);
    OnesXor(Half(s), Folded(s), 16);
    OnesHalf(s, 15);
    BitHalf(s, 15);
    FoldedCases(s);
    PolynomialOnes();
  }

  lemma {:induction false} ShiftNParity(s: bv16, n: nat)
    ensures Ones(ShiftN(s, n), 16) % 2 == Ones(s, 16) % 2
  {
    hide Ones, Shift1;
    if n > 0 {
      ShiftNParity(s, n - 1);
      Shift1Parity(ShiftN(s, n - 1));
    }
  }

  predicate OddOnes(s: bv16) {
    Ones(s, 16) % 2 == 1
  }

  lemma ByteStepParity(s: bv16, b: bv8)
    ensures OddOnes(ByteStep(s, b)) <==> OddOnes(s) != OddOnes(b as bv16)
  {
    hide Ones, Shift8, Shift1, Xor16;
    var t := Xor16(s, b as bv16);
    OnesXor(s, b as bv16, 16);
    ShiftEight(t);
    ShiftNParity(t, 8);
  }

  lemma {:induction false} FeedParity(e: seq<bv8>)
    ensures OddOnes(Feed(0, e)) <==> FlippedBits(e) % 2 == 1
  {
    hide Ones, ByteStep;
    if e == [] {
      PolynomialOnes();
    } else {
      var n := |e| - 1;
      FeedParity(e[..n]);
      ByteStepParity(Feed(0, e[..n]), e[n]);
    }
  }

  /** Damage to an odd number of bits, however spread out, is noticed. */
  lemma OddDamageDetected(f: seq<bv8>, g: seq<bv8>)
    requires |f| == |g| && Feed(0xFFFF, f) == 0
    requires FlippedBits(Corrupt(f, g)) % 2 == 1
    ensures Feed(0xFFFF, g) != 0
  {
    hide Ones, ByteStep;
    UndetectedExactly(f, g);
    FeedParity(Corrupt(f, g));
    PolynomialOnes();
  }
}

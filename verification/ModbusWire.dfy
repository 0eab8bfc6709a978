/**
 * The bytes on the line and the numbers a caller sees, as the protocol and the header file give them.
 */
module ModbusWire {
  import opened Bitwise
  import opened ModbusSpec
  import opened ModbusBits
  import opened ModbusCalls
  import opened ModbusTheorems

  // ---- Queries -------------------------------------------------------------------------------------

  /** The function code of each kind of call. */
  function Code(c: Call): int {
    match c
    case ReadBits(input, _, _) => if input then 2 else 1
    case ReadWords(input, _, _) => if input then 4 else 3
    case WriteCoil(_, _) => 5
    case WriteRegister(_, _) => 6
    case WriteCoils(_, _) => 15
    case WriteRegisters(_, _) => 16
  }

  /** The count asked for, or the value of a single write: 0xFF00 and 0 for a coil. */
  function Value(c: Call): int {
    match c
    case ReadBits(_, _, nb) => nb
    case ReadWords(_, _, nb) => nb
    case WriteCoil(_, state) => if state == 0 then 0 else 65280
    case WriteRegister(_, value) => value
    case WriteCoils(_, flags) => |flags|
    case WriteRegisters(_, words) => |words|
  }

  /** The limits of the calls. */
  lemma Limits(c: Call)
    ensures c.ReadBits? ==> (TooMany(c) <==> c.nb > 800)
    ensures c.ReadWords? ==> (TooMany(c) <==> c.nb > 100)
    ensures c.WriteCoils? ==> (TooMany(c) <==> |c.flags| > 800)
    ensures c.WriteRegisters? ==> (TooMany(c) <==> |c.words| > 100)
    ensures c.WriteCoil? || c.WriteRegister? ==> !TooMany(c)
  {
  }

  /** The twelve bytes every query starts with. */
  lemma QueryHead(c: Call, id: word, slave: byte)
    requires !TooMany(c)
    ensures var q := QueryOf(c, id, slave);
      && |q| >= 12 && q[0] == id / 256 && q[1] == id % 256 && q[2] == 0 && q[3] == 0
      && 256 * q[4] + q[5] == |q| - 6 && q[6] == slave && q[7] == Code(c)
      && q[8] == c.addr / 256 && q[9] == c.addr % 256
      && q[10] == Value(c) / 256 && q[11] == Value(c) % 256
  {
    QueryBytes(c, id, slave, []);
    assert QueryOf(c, id, slave) + [] == QueryOf(c, id, slave);
    LengthField(c, id, slave);
    hide QueryOf, Payload;
  }

  lemma LengthField(c: Call, id: word, slave: byte)
    requires !TooMany(c)
    ensures var q := QueryOf(c, id, slave);
      && |q| == 12 + |Payload(c)| && q[0] == id / 256 && q[1] == id % 256 && q[2] == 0 && q[3] == 0
      && 256 * q[4] + q[5] == |q| - 6
  {
    hide Payload;
  }

  lemma PayloadSize(c: Call)
    requires !TooMany(c)
    ensures c.ReadBits? || c.ReadWords? || c.WriteCoil? || c.WriteRegister? ==> Payload(c) == []
    ensures c.WriteCoils? ==>
              && |Payload(c)| == 1 + (|c.flags| + 7) / 8 && Payload(c)[0] == (|c.flags| + 7) / 8
              && Payload(c)[1..] == PackBits(Flags(c.flags))
    ensures c.WriteRegisters? ==>
              && |Payload(c)| == 1 + 2 * |c.words| && Payload(c)[0] == 2 * |c.words|
              && Payload(c)[1..] == PackWords(c.words)
  {
  }

  lemma TailIsPayload(c: Call, id: word, slave: byte)
    requires !TooMany(c)
    ensures var q := QueryOf(c, id, slave);
      && |q| == 12 + |Payload(c)| && q[12..] == Payload(c)
      && (Payload(c) != [] ==> q[12] == Payload(c)[0] && q[13..] == Payload(c)[1..])
  {
    QueryBytes(c, id, slave, []);
    hide QueryOf, Payload;
    var q, d := QueryOf(c, id, slave), Payload(c);
    assert q + [] == q && d + [] == d;
    assert d != [] ==> q[13..] == q[12..][1..];
  }

  /** What follows them: nothing, or the number of bytes and the data of a multiple write. */
  lemma QueryTail(c: Call, id: word, slave: byte)
    requires !TooMany(c)
    ensures var q := QueryOf(c, id, slave);
      && (c.ReadBits? || c.ReadWords? || c.WriteCoil? || c.WriteRegister? ==> |q| == 12)
      && (c.WriteCoils? ==> |q| == 13 + (|c.flags| + 7) / 8 && q[12] == (|c.flags| + 7) / 8)
      && (c.WriteRegisters? ==> |q| == 13 + 2 * |c.words| && q[12] == 2 * |c.words|)
  {
    hide *;
    PayloadSize(c);
    TailIsPayload(c, id, slave);
  }

  /** Bit k of a byte. */
  predicate Lit(b: int, k: nat)
    requires k < 8
  {
    b / [1, 2, 4, 8, 16, 32, 64, 128][k] % 2 == 1
  }

  lemma BitIsLit(b: byte, k: nat)
    requires k < 8
    ensures Bit(b, k) <==> Lit(b, k)
  {
    PowersOf2(k);
    ShiftIsDivision(b, k);
    ShrBit(b, k, 0);
    hide Shr, Low, Pow2;
  }

  lemma PowersOf2(k: nat)
    requires k < 8
    ensures Pow2(k) == [1, 2, 4, 8, 16, 32, 64, 128][k]
  {
    assert Pow2(3) == 8 && Pow2(4) == 16 && Pow2(5) == 32 && Pow2(6) == 64 && Pow2(7) == 128;
  }

  /** A flag is on the line as one bit, eight to a byte, the first in the lowest bit; the rest of the last byte is 0. */
  lemma FlagOnLine(c: Call, id: word, slave: byte, i: nat, j: nat)
    requires !TooMany(c) && c.WriteCoils? && i < (|c.flags| + 7) / 8 && j < 8
    ensures |QueryOf(c, id, slave)| == 13 + (|c.flags| + 7) / 8
    ensures Lit(QueryOf(c, id, slave)[13 + i], j) <==> 8 * i + j < |c.flags| && c.flags[8 * i + j] != 0
  {
    hide *;
    QueryTail(c, id, slave);
    PayloadSize(c);
    TailIsPayload(c, id, slave);
    var q := QueryOf(c, id, slave);
    assert q[13 + i] == q[13..][i];
    FlagInByte(c.flags, i, j);
  }

  lemma FlagInByte(flags: seq<byte>, i: nat, j: nat)
    requires i < (|flags| + 7) / 8 && j < 8
    ensures |PackBits(Flags(flags))| == (|flags| + 7) / 8
    ensures Lit(PackBits(Flags(flags))[i], j) <==> 8 * i + j < |flags| && flags[8 * i + j] != 0
  {
    hide *;
    FlagCell(flags, 8 * i + j);
    FlagsClean(flags);
    PackedSize(flags);
    PackedCell(Flags(flags), i, j);
    BitIsLit(PackBits(Flags(flags))[i], j);
  }

  lemma FlagCell(flags: seq<byte>, n: nat)
    ensures |Flags(flags)| == |flags|
    ensures n < |flags| ==> (Flags(flags)[n] == 1 <==> flags[n] != 0)
  {
  }

  lemma PackedSize(flags: seq<byte>)
    ensures Bytes(|Flags(flags)|) == (|flags| + 7) / 8 == |PackBits(Flags(flags))|
  {
  }

  /** A register is on the line as two bytes, the high one first. */
  lemma WordOnLine(c: Call, id: word, slave: byte, i: nat)
    requires !TooMany(c) && c.WriteRegisters? && i < |c.words|
    ensures var q := QueryOf(c, id, slave);
      |q| == 13 + 2 * |c.words| && q[13 + 2 * i] == c.words[i] / 256 && q[14 + 2 * i] == c.words[i] % 256
  {
    PackedWord(c.words, i);
    hide *;
    QueryTail(c, id, slave);
    PayloadSize(c);
    TailIsPayload(c, id, slave);
    var q := QueryOf(c, id, slave);
    assert q[13 + 2 * i] == q[13..][2 * i] && q[14 + 2 * i] == q[13..][2 * i + 1];
  }

  lemma PackedWord(words: seq<word>, i: nat)
    requires i < |words|
    ensures var b := PackWords(words);
      |b| == 2 * |words| && b[2 * i] == words[i] / 256 && b[2 * i + 1] == words[i] % 256
  {
  }

  // ---- Replies -------------------------------------------------------------------------------------

  /** The address and the count, or value, of a query. */
  function AddressOf(p: seq<byte>): int
    requires |p| >= 12
  {
    (p[8] as int) * 256 + p[9]
  }

  function CountOf(p: seq<byte>): int
    requires |p| >= 12
  {
    (p[10] as int) * 256 + p[11]
  }

  lemma FieldsAre(p: seq<byte>)
    requires |p| >= 12
    ensures Address(p) == AddressOf(p) && Count(p) == CountOf(p)
  {
  }

  lemma FitsSize(p: seq<byte>, n: nat, t: Tables)
    requires Fits(p, n, t)
    ensures |p| == 256
  {
  }

  /** A refusal: the function code with its highest bit set, and the reason. */
  function Refusal(p: seq<byte>, reason: byte): seq<byte>
    requires |p| >= 12
  {
    [p[0], p[1], 0, 0, 0, 3, p[6], (p[7] as int + 128) % 256, reason]
  }

  lemma RefusalIs(p: seq<byte>, reason: int)
    requires |p| >= 12 && 0 < reason <= 12
    ensures Exception(p, -reason) == Refusal(p, reason)
  {
  }

  /** How the reply to a read starts: behind the nine bytes come n bytes of data. */
  predicate ReadReply(p: seq<byte>, r: seq<byte>, n: int)
    requires |p| >= 12
  {
    && 0 <= n < 256 && |r| == 9 + n
    && r[..9] == [p[0], p[1], 0, 0, (n + 3) / 256, (n + 3) % 256, p[6], p[7], n]
  }

  lemma ReplyIs(p: seq<byte>, data: seq<byte>)
    requires |p| >= 12 && |data| < 255
    ensures var r := Reply(p, p[7], [|data|] + data); ReadReply(p, r, |data|) && r[9..] == data
  {
    var r := Reply(p, p[7], [|data|] + data);
    assert r == [p[0], p[1], 0, 0, (|data| + 3) / 256, (|data| + 3) % 256, p[6], p[7], |data|] + data;
  }

  /** Code 1 reads the coils and code 2 the inputs: eight to a byte, the first in the lowest bit. */
  lemma BitsServed(p: seq<byte>, n: nat, t: Tables)
    requires Fits(p, n, t) && (p[7] == 1 || p[7] == 2)
    ensures var table := if p[7] == 1 then t.coils else t.inputs; var addr, nb := AddressOf(p), CountOf(p);
      && Serve(p, n, t).tables == t
      && (addr + nb > |table| ==> Serve(p, n, t).reply == Refusal(p, 2))
      && (addr + nb <= |table| ==>
            && ReadReply(p, Serve(p, n, t).reply, (nb + 7) / 8)
            && Serve(p, n, t).reply[9..] == PackBits(table[addr..addr + nb]))
  {
    hide *;
    FitsSize(p, n, t);
    FieldsAre(p);
    RefusalIs(p, 2);
    Codes();
    Refuses();
    FitsBits(p, n, t);
    var table := if p[7] == 1 then t.coils else t.inputs;
    var addr, nb := AddressOf(p), CountOf(p);
    ServeBits(p, n, t, p[7] == 2);
    if addr + nb <= |table| {
      BytesAre(table[addr..addr + nb]);
      ReplyIs(p, PackBits(table[addr..addr + nb]));
    }
  }

  lemma FitsBits(p: seq<byte>, n: nat, t: Tables)
    requires Fits(p, n, t) && (p[7] == 1 || p[7] == 2)
    ensures var table := if p[7] == 1 then t.coils else t.inputs;
      Address(p) + Count(p) <= |table| ==> Bytes(Count(p)) < 255
  {
  }

  lemma BytesAre(cells: seq<byte>)
    ensures Bytes(|cells|) == (|cells| + 7) / 8 == |PackBits(cells)|
  {
  }

  /** Code 3 reads the holding registers and code 4 the input registers: two bytes each, the high one first. */
  lemma WordsServed(p: seq<byte>, n: nat, t: Tables)
    requires Fits(p, n, t) && (p[7] == 3 || p[7] == 4)
    ensures var table := if p[7] == 3 then t.holding else t.inputRegisters; var addr, nb := AddressOf(p), CountOf(p);
      && Serve(p, n, t).tables == t
      && (addr + nb > |table| ==> Serve(p, n, t).reply == Refusal(p, 2))
      && (addr + nb <= |table| ==>
            && ReadReply(p, Serve(p, n, t).reply, 2 * nb)
            && forall i | 0 <= i < nb ::
                 && Serve(p, n, t).reply[9 + 2 * i] == table[addr + i] / 256
                 && Serve(p, n, t).reply[10 + 2 * i] == table[addr + i] % 256)
  {
    hide *;
    FitsSize(p, n, t);
    FieldsAre(p);
    RefusalIs(p, 2);
    FitsWords(p, n, t);
    var table := if p[7] == 3 then t.holding else t.inputRegisters;
    var addr, nb := AddressOf(p), CountOf(p);
    Codes();
    Refuses();
    ServeWords(p, n, t, p[7] == 4);
    if addr + nb <= |table| {
      var words := table[addr..addr + nb];
      PackedSizeWords(words);
      ReplyIs(p, PackWords(words));
      forall i | 0 <= i < nb
        ensures 10 + 2 * i < |Serve(p, n, t).reply|
        ensures Serve(p, n, t).reply[9 + 2 * i] == table[addr + i] / 256
        ensures Serve(p, n, t).reply[10 + 2 * i] == table[addr + i] % 256
      {
        WordAt(Serve(p, n, t).reply, words, i);
      }
    }
  }

  /** The codes of the protocol. */
  lemma Codes()
    ensures READ_COIL_STATUS == 1 && READ_INPUT_STATUS == 2 && READ_HOLDING_REGISTERS == 3 && READ_INPUT_REGISTERS == 4
    ensures FORCE_SINGLE_COIL == 5 && PRESET_SINGLE_REGISTER == 6
    ensures FORCE_MULTIPLE_COILS == 15 && PRESET_MULTIPLE_REGISTERS == 16
  {
  }

  lemma Refuses()
    ensures ILLEGAL_DATA_ADDRESS == -2 && ILLEGAL_DATA_VALUE == -3
  {
  }

  lemma WordAt(r: seq<byte>, words: seq<word>, i: nat)
    requires i < |words| && |r| == 9 + 2 * |words| && r[9..] == PackWords(words)
    ensures r[9 + 2 * i] == words[i] / 256 && r[10 + 2 * i] == words[i] % 256
  {
    PackedWord(words, i);
    hide PackWords;
    assert r[9 + 2 * i] == r[9..][2 * i] && r[10 + 2 * i] == r[9..][2 * i + 1];
  }

  lemma FitsWords(p: seq<byte>, n: nat, t: Tables)
    requires Fits(p, n, t) && (p[7] == 3 || p[7] == 4)
    ensures var table := if p[7] == 3 then t.holding else t.inputRegisters;
      Address(p) + Count(p) <= |table| ==> 2 * Count(p) < 255
  {
  }

  lemma PackedSizeWords(words: seq<word>)
    ensures |PackWords(words)| == 2 * |words|
  {
  }

  /** A confirmation repeats the function code, the address and the count. */
  function Confirmation(p: seq<byte>): seq<byte>
    requires |p| >= 12
  {
    [p[0], p[1], 0, 0, 0, 6, p[6], p[7], p[8], p[9], p[10], p[11]]
  }

  /** Code 5 switches a coil on for 0xFF00 and off for 0; code 6 stores a register. Both are echoed. */
  lemma SingleServed(p: seq<byte>, n: nat, t: Tables)
    requires Fits(p, n, t) && (p[7] == 5 || p[7] == 6)
    ensures var addr, value := AddressOf(p), CountOf(p); var s := Serve(p, n, t);
      && (p[7] == 5 && addr >= |t.coils| ==> s == Served(t, Refusal(p, 2)))
      && (p[7] == 5 && addr < |t.coils| && value == 65280 ==>
            s.tables == t.(coils := t.coils[addr := 1]) && s.reply == Echo(p, n))
      && (p[7] == 5 && addr < |t.coils| && value == 0 ==>
            s.tables == t.(coils := t.coils[addr := 0]) && s.reply == Echo(p, n))
      && (p[7] == 5 && addr < |t.coils| && value != 65280 && value != 0 ==> s == Served(t, Refusal(p, 3)))
      && (p[7] == 6 && addr >= |t.holding| ==> s == Served(t, Refusal(p, 2)))
      && (p[7] == 6 && addr < |t.holding| ==>
            s.tables == t.(holding := t.holding[addr := value]) && s.reply == Echo(p, n))
  {
    FieldsAre(p);
    RefusalIs(p, 2);
    RefusalIs(p, 3);
    hide Address, Count, Exception, Echo, Refusal, AddressOf, CountOf;
  }

  /** An echo is the query with its length set again. */
  lemma EchoIs(p: seq<byte>, n: nat)
    requires 12 <= n <= |p| <= 256
    ensures Echo(p, n) == p[..4] + [(n - 6) / 256, (n - 6) % 256] + p[6..n]
  {
  }

  /** Code 15 sets coils and code 16 holding registers, from byte 13 on. */
  lemma MultipleServed(p: seq<byte>, n: nat, t: Tables)
    requires Fits(p, n, t) && (p[7] == 15 || p[7] == 16)
    ensures var addr, nb := AddressOf(p), CountOf(p); var s := Serve(p, n, t);
      var size := if p[7] == 15 then |t.coils| else |t.holding|;
      && (addr + nb > size ==> s == Served(t, Refusal(p, 2)))
      && (addr + nb <= size ==> s.reply == Confirmation(p))
      && (addr + nb <= size && p[7] == 15 ==>
            s.tables == t.(coils := Splice(t.coils, addr, UnpackBits(p[13..], nb))))
      && (addr + nb <= size && p[7] == 16 ==>
            s.tables == t.(holding := Splice(t.holding, addr, UnpackWords(p[13..], nb))))
  {
    hide *;
    FitsSize(p, n, t);
    FieldsAre(p);
    RefusalIs(p, 2);
    Codes();
    Refuses();
    ConfirmationIs(p);
    ServeMultiple(p, n, t);
  }

  lemma ConfirmationIs(p: seq<byte>)
    requires |p| >= 12
    ensures Reply(p, p[7], p[8..12]) == Confirmation(p)
  {
  }

  /** The cells that are set, and all others as they were. */
  lemma CellsSet(t: seq<byte>, addr: nat, bytes: seq<byte>, nb: nat, i: nat)
    requires addr + nb <= |t| && nb <= 8 * |bytes| && i < |t|
    ensures var now := Splice(t, addr, UnpackBits(bytes, nb));
      && |now| == |t|
      && now[i] == if addr <= i < addr + nb then (if Lit(bytes[(i - addr) / 8], (i - addr) % 8) then 1 else 0)
                   else t[i]
  {
    if addr <= i < addr + nb {
      BitIsLit(bytes[(i - addr) / 8], (i - addr) % 8);
    }
    hide Bit, Lit;
  }

  lemma RegistersSet(t: seq<word>, addr: nat, bytes: seq<byte>, nb: nat, i: nat)
    requires addr + nb <= |t| && 2 * nb <= |bytes| && i < |t|
    ensures var now := Splice(t, addr, UnpackWords(bytes, nb));
      && |now| == |t|
      && now[i] == if addr <= i < addr + nb then (bytes[2 * (i - addr)] as int) * 256 + bytes[2 * (i - addr) + 1]
                   else t[i]
  {
  }

  /** Any other code changes nothing and is not answered. */
  lemma OthersIgnored(p: seq<byte>, n: nat, t: Tables)
    requires Fits(p, n, t) && p[7] !in [1, 2, 3, 4, 5, 6, 15, 16]
    ensures Serve(p, n, t) == Served(t, [])
  {
    Codes();
  }

  // ---- What a caller sees --------------------------------------------------------------------------

  /** The operation on the arrays: a call outside them gives -2, one that asks for too much -15. */
  lemma ResultNumbers(c: Call, t: Tables)
    ensures TooMany(c) ==> Plain(c, t) == (t, Result(-15, []))
    ensures !TooMany(c) ==>
              var size := match c
                          case ReadBits(input, _, _) => if input then |t.inputs| else |t.coils|
                          case ReadWords(input, _, _) => if input then |t.inputRegisters| else |t.holding|
                          case WriteCoil(_, _) => |t.coils|
                          case WriteRegister(_, _) => |t.holding|
                          case WriteCoils(_, _) => |t.coils|
                          case WriteRegisters(_, _) => |t.holding|;
              var cells := match c
                           case ReadBits(_, _, nb) => nb
                           case ReadWords(_, _, nb) => nb
                           case WriteCoil(_, _) => 1
                           case WriteRegister(_, _) => 1
                           case WriteCoils(_, flags) => |flags|
                           case WriteRegisters(_, words) => |words|;
              if c.addr + cells > size then Plain(c, t) == (t, Result(-2, [])) else Plain(c, t).1.ret == cells
  {
    hide Splice, Flags;
  }

  /** What a line that ends early is to a caller, and how a reply is judged. */
  lemma EndNumbers()
    ensures Silent.Code() == -12 && Closed.Code() == -18 && Broken.Code() == -13
  {
  }

  /** A refusal that is received is the negative of its reason, up to 11; a greater one is -17. */
  lemma RefusalJudged(q: seq<byte>, r: seq<byte>)
    requires |q| >= 12 && |r| >= 12 && (q[7] as int) + 128 == r[7]
    ensures Judge(q, -12, r, 9) == if r[8] <= 11 then -(r[8] as int) else -17
  {
  }

  /** A reply of the length expected is judged by the number of values in it. */
  lemma ReplyJudged(q: seq<byte>, r: seq<byte>, n: int)
    requires |q| >= 12 && |r| >= 12
    ensures r[7] == 1 || r[7] == 2 ==> Judge(q, 0, r, n) == if r[8] == (CountOf(q) + 7) / 8 then r[8] else -3
    ensures r[7] == 3 || r[7] == 4 ==> Judge(q, 0, r, n) == if r[8] / 2 == CountOf(q) then r[8] / 2 else -3
    ensures r[7] == 15 || r[7] == 16 ==>
              Judge(q, 0, r, n) == if CountOf(r) == CountOf(q) then CountOf(r) else -3
    ensures r[7] == 17 ==> Judge(q, 0, r, n) == n
    ensures r[7] !in [1, 2, 3, 4, 15, 16, 17] ==> Judge(q, 0, r, n) == 1
  {
  }

  /** The length of the reply that is waited for. */
  lemma WantedLength(q: seq<byte>)
    requires |q| >= 12
    ensures q[7] == 1 || q[7] == 2 ==> ResponseLength(q) == 9 + (CountOf(q) + 7) / 8
    ensures q[7] == 3 || q[7] == 4 ==> ResponseLength(q) == 9 + 2 * CountOf(q)
    ensures q[7] == 7 ==> ResponseLength(q) == 10
    ensures q[7] == 0 || q[7] == 5 || q[7] == 6 || q[7] > 7 ==> ResponseLength(q) == 12
  {
  }

  /** The transaction id of the next query. */
  lemma IdIs(id: word)
    ensures NextId(id) == if id == 65535 then 0 else id + 1
  {
  }

  // ---- Where a query ends --------------------------------------------------------------------------

  /** A whole query, by its bytes: over TCP the function code is byte 7, over a serial line byte 1. */
  lemma WholeLength(mode: Mode, q: seq<byte>)
    requires |q| <= 256
    ensures mode.TCP? && |q| >= 8 && q[7] <= 6 ==> (Whole(mode, q) <==> |q| == 12)
    ensures mode.TCP? && |q| >= 13 && (q[7] == 15 || q[7] == 16) ==> (Whole(mode, q) <==> |q| == 13 + (q[12] as int))
    ensures mode.TCP? && |q| >= 8 && q[7] > 6 && q[7] != 15 && q[7] != 16 ==> (Whole(mode, q) <==> |q| == 8)
    ensures mode.RTU? && |q| >= 2 && q[1] <= 6 ==> (Whole(mode, q) <==> |q| == 8)
    ensures mode.RTU? && |q| >= 7 && (q[1] == 15 || q[1] == 16) ==> (Whole(mode, q) <==> |q| == 9 + (q[6] as int))
    ensures mode.RTU? && |q| >= 2 && q[1] > 6 && q[1] != 15 && q[1] != 16 ==> (Whole(mode, q) <==> |q| == 2)
  {
  }

  /** A query that says it is longer than 256 bytes is given up behind its byte count. */
  lemma TooLong(mode: Mode, input: seq<byte>, end: End)
    requires mode.RTU? && |input| >= 7 && (input[1] == 15 || input[1] == 16)
    ensures 9 + (input[6] as int) > 256 ==> ReceiveQuery(mode, input, end) == Received(-15, input[..7], input[7..])
  {
  }
}

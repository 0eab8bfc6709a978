/**
 * The client's calls over the wire are operations on the slave's plain arrays.
 */
module ModbusTheorems {
  import opened Bitwise
  import opened ModbusSpec
  import opened ModbusBits
  import opened ModbusCalls

  /** The table a reading call reads from. */
  function BitTable(c: Call, t: Tables): seq<byte>
    requires c.ReadBits?
  {
    if c.input then t.inputs else t.coils
  }

  function WordTable(c: Call, t: Tables): seq<word>
    requires c.ReadWords?
  {
    if c.input then t.inputRegisters else t.holding
  }

  // ---- Replies with data ---------------------------------------------------------------------------

  lemma JudgeBits(q: seq<byte>, r: seq<byte>, m: int)
    requires |q| >= 12 && |r| >= 12 && r[7] == q[7] && (q[7] == READ_COIL_STATUS || q[7] == READ_INPUT_STATUS)
    requires r[8] == Bytes(Count(q))
    ensures Judge(q, 0, r, m) == Bytes(Count(q))
  {
  }

  lemma JudgeWords(q: seq<byte>, r: seq<byte>, m: int)
    requires |q| >= 12 && |r| >= 12 && r[7] == q[7]
    requires q[7] == READ_HOLDING_REGISTERS || q[7] == READ_INPUT_REGISTERS
    requires r[8] == 2 * Count(q)
    ensures Judge(q, 0, r, m) == Count(q)
  {
  }

  lemma JudgeWrites(q: seq<byte>, r: seq<byte>, m: int)
    requires |q| >= 12 && |r| >= 12 && r[7] == q[7] && Multiple(q[7])
    requires Word(r[10], r[11]) == Count(q)
    ensures Judge(q, 0, r, m) == Count(q)
  {
  }

  lemma HearRefusedRead(q: seq<byte>, p: seq<byte>, stale: seq<byte>)
    requires |q| >= 12 && |p| >= 12 && p[7] == q[7] && 1 <= q[7] <= 4
    requires 9 <= ResponseLength(q) <= |stale| == MAX_MESSAGE_LENGTH
    ensures var h := Hear(q, Exception(p, ILLEGAL_DATA_ADDRESS), stale);
      h.left == [] && h.ret == if ResponseLength(q) == 9 then 1 else ILLEGAL_DATA_ADDRESS
  {
    assert -12 < ILLEGAL_DATA_ADDRESS < 0;
    hide *;
    if ResponseLength(q) == 9 {
      HearRefusalOfNothing(q, p, ILLEGAL_DATA_ADDRESS, stale);
    } else {
      HearRefusal(q, p, ILLEGAL_DATA_ADDRESS, stale);
    }
  }

  lemma HearData(q: seq<byte>, p: seq<byte>, count: byte, data: seq<byte>, stale: seq<byte>)
    requires |q| >= 12 && |p| >= 12 && p[7] == q[7] && |data| < 247
    requires ResponseLength(q) == 9 + |data| && |stale| == MAX_MESSAGE_LENGTH
    ensures var h := Hear(q, Reply(p, p[7], [count] + data), stale);
      && h.left == [] && h.buffer[7] == q[7] && h.buffer[8] == count
      && h.buffer[9..] == data + stale[9 + |data|..]
      && h.ret == Judge(q, 0, h.buffer, 9 + |data|)
  {
    HearReply(q, p, [count] + data, stale);
    hide *;
    var h := Hear(q, Reply(p, p[7], [count] + data), stale);
    assert h.buffer[8] == h.buffer[8..][0];
    assert h.buffer[9..] == h.buffer[8..][1..];
  }

  lemma HearBits(q: seq<byte>, p: seq<byte>, cells: seq<byte>, stale: seq<byte>)
    requires |q| >= 12 && |p| >= 12 && p[7] == q[7] && (q[7] == READ_COIL_STATUS || q[7] == READ_INPUT_STATUS)
    requires |cells| == Count(q) <= MAX_STATUS && ResponseLength(q) == 9 + Bytes(Count(q))
    requires |stale| == MAX_MESSAGE_LENGTH
    ensures var n := Count(q); var h := Hear(q, Reply(p, p[7], [Bytes(n)] + PackBits(cells)), stale);
      h.left == [] && h.ret == Bytes(n) && h.buffer[9..] == PackBits(cells) + stale[9 + Bytes(n)..]
  {
    var n, data := Count(q), PackBits(cells);
    assert Bytes(n) <= 100 && |data| == Bytes(n);
    hide *;
    HearData(q, p, Bytes(n), data, stale);
    JudgeBits(q, Hear(q, Reply(p, p[7], [Bytes(n)] + data), stale).buffer, 9 + |data|);
  }

  lemma HearWords(q: seq<byte>, p: seq<byte>, words: seq<word>, stale: seq<byte>)
    requires |q| >= 12 && |p| >= 12 && p[7] == q[7]
    requires q[7] == READ_HOLDING_REGISTERS || q[7] == READ_INPUT_REGISTERS
    requires |words| == Count(q) <= MAX_REGISTERS && ResponseLength(q) == 9 + 2 * Count(q)
    requires |stale| == MAX_MESSAGE_LENGTH
    ensures var n := Count(q); var h := Hear(q, Reply(p, p[7], [2 * n] + PackWords(words)), stale);
      h.left == [] && h.ret == n && h.buffer[9..] == PackWords(words) + stale[9 + 2 * n..]
  {
    var n, data := Count(q), PackWords(words);
    assert |data| == 2 * n;
    hide *;
    HearData(q, p, 2 * n, data, stale);
    JudgeWords(q, Hear(q, Reply(p, p[7], [2 * n] + data), stale).buffer, 9 + |data|);
  }

  /** Multiple writes are confirmed by address and count. */
  lemma HearConfirmation(q: seq<byte>, p: seq<byte>, addr: word, n: word, stale: seq<byte>)
    requires |q| >= 12 && |p| >= 12 && p[7] == q[7] && Multiple(q[7]) && Count(q) == n
    requires p[8..12] == [Hi(addr), Lo(addr), Hi(n), Lo(n)]
    requires ResponseLength(q) == 12 && |stale| == MAX_MESSAGE_LENGTH
    ensures var h := Hear(q, Reply(p, p[7], p[8..12]), stale); h.left == [] && h.ret == n
  {
    HearReply(q, p, p[8..12], stale);
    HalvesMakeWord(n);
    hide *;
    var h := Hear(q, Reply(p, p[7], p[8..12]), stale);
    assert h.buffer[10] == h.buffer[8..][2] == p[8..12][2];
    assert h.buffer[11] == h.buffer[8..][3] == p[8..12][3];
    JudgeWrites(q, h.buffer, 12);
  }

  // ---- One call ------------------------------------------------------------------------------------

  /** The conversation is: the query is served as it is, and the reply is judged. */
  lemma Conversation(c: Call, id: word, slave: byte, t: Tables, b: Buffers)
    requires b.Sized() && !TooMany(c)
    ensures |b.slave| == |b.client| == MAX_MESSAGE_LENGTH
    ensures var q := QueryOf(c, id, slave); var p := Padded(q, b.slave);
      && 12 <= |q| <= MAX_MESSAGE_LENGTH && Fits(p, |q|, t) && ResponseLength(q) <= MAX_MESSAGE_LENGTH
      && Answer(c, id, slave, t, b) == Serve(p, |q|, t)
      && Converse(c, id, slave, t, b) == Hear(q, Serve(p, |q|, t).reply, b.client)
  {
    QuerySuits(c, id, slave, t, b);
    hide QueryOf, Payload, ReceiveQuery, ResponseLength, Address, Count, Serve, Fits, Padded, Hear;
  }

  lemma ServeBits(p: seq<byte>, n: nat, t: Tables, input: bool)
    requires Fits(p, n, t) && p[7] == (if input then READ_INPUT_STATUS else READ_COIL_STATUS)
    ensures var table := if input then t.inputs else t.coils; var addr, nb := Address(p), Count(p);
      Serve(p, n, t) == Served(t, if addr + nb > |table| then Exception(p, ILLEGAL_DATA_ADDRESS)
                                  else Reply(p, p[7], [Bytes(nb)] + PackBits(table[addr..addr + nb])))
  {
    hide Address, Count, Exception, Reply;
  }

  lemma ServeWords(p: seq<byte>, n: nat, t: Tables, input: bool)
    requires Fits(p, n, t) && p[7] == (if input then READ_INPUT_REGISTERS else READ_HOLDING_REGISTERS)
    ensures var table := if input then t.inputRegisters else t.holding; var addr, nb := Address(p), Count(p);
      Serve(p, n, t) == Served(t, if addr + nb > |table| then Exception(p, ILLEGAL_DATA_ADDRESS)
                                  else Reply(p, p[7], [2 * nb] + PackWords(table[addr..addr + nb])))
  {
    hide Address, Count, Exception, Reply;
  }

  lemma BitsQuery(c: Call, t: Tables)
    requires !TooMany(c) && c.ReadBits?
    ensures FunctionOf(c) == (if c.input then READ_INPUT_STATUS else READ_COIL_STATUS)
    ensures FunctionOf(c) == READ_INPUT_STATUS || FunctionOf(c) == READ_COIL_STATUS
    ensures 1 <= FunctionOf(c) <= 4 && ValueOf(c) == c.nb <= MAX_STATUS && Wanted(c) == 9 + Bytes(c.nb)
    ensures Bytes(c.nb) == 0 <==> c.nb == 0
    ensures BitTable(c, t) == if c.input then t.inputs else t.coils
  {
  }

  lemma WordsQuery(c: Call, t: Tables)
    requires !TooMany(c) && c.ReadWords?
    ensures FunctionOf(c) == (if c.input then READ_INPUT_REGISTERS else READ_HOLDING_REGISTERS)
    ensures FunctionOf(c) == READ_INPUT_REGISTERS || FunctionOf(c) == READ_HOLDING_REGISTERS
    ensures 1 <= FunctionOf(c) <= 4 && ValueOf(c) == c.nb <= MAX_REGISTERS && Wanted(c) == 9 + 2 * c.nb
    ensures WordTable(c, t) == if c.input then t.inputRegisters else t.holding
  {
  }

  lemma ReadBitsHeard(c: Call, id: word, slave: byte, t: Tables, b: Buffers)
    requires b.Sized() && !TooMany(c) && c.ReadBits?
    ensures var h := Converse(c, id, slave, t, b); var table := BitTable(c, t);
      && Answer(c, id, slave, t, b).tables == t && h.left == []
      && (c.addr + c.nb > |table| ==> h.ret == if c.nb == 0 then 1 else ILLEGAL_DATA_ADDRESS)
      && (c.addr + c.nb <= |table| ==>
            && h.ret == Bytes(c.nb)
            && h.buffer[9..] == PackBits(table[c.addr..c.addr + c.nb]) + b.client[9 + Bytes(c.nb)..])
  {
    hide *;
    BitsQuery(c, t);
    var table := BitTable(c, t);
    QuerySuits(c, id, slave, t, b);
    Conversation(c, id, slave, t, b);
    var q := QueryOf(c, id, slave);
    var p := Padded(q, b.slave);
    ServeBits(p, |q|, t, c.input);
    if c.addr + c.nb > |table| {
      HearRefusedRead(q, p, b.client);
    } else {
      HearBits(q, p, table[c.addr..c.addr + c.nb], b.client);
    }
  }

  lemma ReadWordsHeard(c: Call, id: word, slave: byte, t: Tables, b: Buffers)
    requires b.Sized() && !TooMany(c) && c.ReadWords?
    ensures var h := Converse(c, id, slave, t, b); var table := WordTable(c, t);
      && Answer(c, id, slave, t, b).tables == t && h.left == []
      && (c.addr + c.nb > |table| ==> h.ret == if c.nb == 0 then 1 else ILLEGAL_DATA_ADDRESS)
      && (c.addr + c.nb <= |table| ==>
            && h.ret == c.nb
            && h.buffer[9..] == PackWords(table[c.addr..c.addr + c.nb]) + b.client[9 + 2 * c.nb..])
  {
    hide *;
    WordsQuery(c, t);
    var table := WordTable(c, t);
    QuerySuits(c, id, slave, t, b);
    Conversation(c, id, slave, t, b);
    var q := QueryOf(c, id, slave);
    var p := Padded(q, b.slave);
    ServeWords(p, |q|, t, c.input);
    if c.addr + c.nb > |table| {
      HearRefusedRead(q, p, b.client);
    } else {
      HearWords(q, p, table[c.addr..c.addr + c.nb], b.client);
    }
  }

  lemma ServeSingle(p: seq<byte>, n: nat, t: Tables)
    requires Fits(p, n, t) && (p[7] == FORCE_SINGLE_COIL || p[7] == PRESET_SINGLE_REGISTER)
    requires p[7] == FORCE_SINGLE_COIL ==> Count(p) == 0 || Count(p) == 0xFF00
    ensures p[7] == FORCE_SINGLE_COIL ==>
              Serve(p, n, t) == if Address(p) >= |t.coils| then Served(t, Exception(p, ILLEGAL_DATA_ADDRESS))
                                else Served(t.(coils := t.coils[Address(p) := if Count(p) != 0 then 1 else 0]),
                                             Echo(p, n))
    ensures p[7] == PRESET_SINGLE_REGISTER ==>
              Serve(p, n, t) == if Address(p) >= |t.holding| then Served(t, Exception(p, ILLEGAL_DATA_ADDRESS))
                                else Served(t.(holding := t.holding[Address(p) := Count(p)]), Echo(p, n))
  {
    hide Address, Count, Exception, Echo;
  }

  lemma SingleQuery(c: Call)
    requires c.WriteCoil? || c.WriteRegister?
    ensures !TooMany(c) && |Payload(c)| == 0 && Wanted(c) == 12
    ensures FunctionOf(c) == if c.WriteCoil? then FORCE_SINGLE_COIL else PRESET_SINGLE_REGISTER
    ensures FunctionOf(c) == 5 || FunctionOf(c) == 6
    ensures c.WriteCoil? ==> ValueOf(c) == if c.state != 0 then 0xFF00 else 0
    ensures c.WriteRegister? ==> ValueOf(c) == c.value
    ensures FORCE_SINGLE_COIL == 5 && PRESET_SINGLE_REGISTER == 6 && -12 < ILLEGAL_DATA_ADDRESS < 0
  {
  }

  lemma PlainSingle(c: Call, t: Tables)
    requires c.WriteCoil? || c.WriteRegister?
    ensures c.WriteCoil? ==>
              Plain(c, t) == if c.addr >= |t.coils| then (t, Result(ILLEGAL_DATA_ADDRESS, []))
                             else (t.(coils := t.coils[c.addr := if c.state != 0 then 1 else 0]), Result(1, []))
    ensures c.WriteRegister? ==>
              Plain(c, t) == if c.addr >= |t.holding| then (t, Result(ILLEGAL_DATA_ADDRESS, []))
                             else (t.(holding := t.holding[c.addr := c.value]), Result(1, []))
  {
  }

  lemma SingleHeard(c: Call, id: word, slave: byte, t: Tables, b: Buffers)
    requires b.Sized() && (c.WriteCoil? || c.WriteRegister?) && !TooMany(c)
    ensures var h := Converse(c, id, slave, t, b);
      h.left == [] && (Answer(c, id, slave, t, b).tables, Result(h.ret, [])) == Plain(c, t)
  {
    hide *;
    SingleQuery(c);
    PlainSingle(c, t);
    QuerySuits(c, id, slave, t, b);
    Conversation(c, id, slave, t, b);
    var q := QueryOf(c, id, slave);
    var p := Padded(q, b.slave);
    ServeSingle(p, |q|, t);
    if c.addr >= if c.WriteCoil? then |t.coils| else |t.holding| {
      HearRefusal(q, p, ILLEGAL_DATA_ADDRESS, b.client);
    } else {
      HearEcho(q, p, b.client);
    }
  }

  lemma ServeMultiple(p: seq<byte>, n: nat, t: Tables)
    requires Fits(p, n, t)
    ensures p[7] == FORCE_MULTIPLE_COILS ==>
              Serve(p, n, t) == if Address(p) + Count(p) > |t.coils| then Served(t, Exception(p, ILLEGAL_DATA_ADDRESS))
                                else Served(t.(coils := Splice(t.coils, Address(p), UnpackBits(p[13..], Count(p)))),
                                            Reply(p, p[7], p[8..12]))
    ensures p[7] == PRESET_MULTIPLE_REGISTERS ==>
              Serve(p, n, t)
              == if Address(p) + Count(p) > |t.holding| then Served(t, Exception(p, ILLEGAL_DATA_ADDRESS))
                 else Served(t.(holding := Splice(t.holding, Address(p), UnpackWords(p[13..], Count(p)))),
                             Reply(p, p[7], p[8..12]))
  {
    hide Address, Count, Exception, Reply, UnpackBits, UnpackWords, Splice;
  }

  function Size(c: Call): nat
    requires c.WriteCoils? || c.WriteRegisters?
  {
    if c.WriteCoils? then |c.flags| else |c.words|
  }

  lemma MultipleQuery(c: Call)
    requires (c.WriteCoils? || c.WriteRegisters?) && !TooMany(c)
    ensures Wanted(c) == 12 && ValueOf(c) == Size(c) && FunctionOf(c) < 128
    ensures Multiple(FunctionOf(c))
    ensures FunctionOf(c) == if c.WriteCoils? then FORCE_MULTIPLE_COILS else PRESET_MULTIPLE_REGISTERS
    ensures c.WriteCoils? ==> Size(c) == |c.flags| <= 8 * Bytes(|c.flags|)
    ensures c.WriteCoils? ==> Payload(c) == [Bytes(|c.flags|)] + PackBits(Flags(c.flags))
    ensures c.WriteCoils? ==> |PackBits(Flags(c.flags))| == Bytes(|c.flags|)
    ensures c.WriteRegisters? ==> Size(c) == |c.words|
    ensures c.WriteRegisters? ==>
              Payload(c) == [2 * |c.words|] + PackWords(c.words) && |PackWords(c.words)| == 2 * |c.words|
    ensures -12 < ILLEGAL_DATA_ADDRESS < 0
  {
  }

  lemma PlainMultiple(c: Call, t: Tables)
    requires (c.WriteCoils? || c.WriteRegisters?) && !TooMany(c)
    ensures c.WriteCoils? ==> |Flags(c.flags)| == |c.flags|
    ensures c.WriteCoils? ==>
              Plain(c, t) == if c.addr + |c.flags| > |t.coils| then (t, Result(ILLEGAL_DATA_ADDRESS, []))
                             else (t.(coils := Splice(t.coils, c.addr, Flags(c.flags))), Result(|c.flags|, []))
    ensures c.WriteRegisters? ==>
              Plain(c, t) == if c.addr + |c.words| > |t.holding| then (t, Result(ILLEGAL_DATA_ADDRESS, []))
                             else (t.(holding := Splice(t.holding, c.addr, c.words)), Result(|c.words|, []))
  {
  }

  /** The slave reads from the query what the client was given. */
  lemma DataArrives(c: Call, p: seq<byte>, tail: seq<byte>)
    requires (c.WriteCoils? || c.WriteRegisters?) && !TooMany(c) && |p| >= 13 && p[12..] == Payload(c) + tail
    ensures c.WriteCoils? ==> |c.flags| <= 8 * |p[13..]| && UnpackBits(p[13..], |c.flags|) == Flags(c.flags)
    ensures c.WriteRegisters? ==> 2 * |c.words| <= |p[13..]| && UnpackWords(p[13..], |c.words|) == c.words
  {
    hide *;
    MultipleQuery(c);
    assert p[13..] == p[12..][1..];
    if c.WriteCoils? {
      assert p[13..] == PackBits(Flags(c.flags)) + tail;
      PlainMultiple(c, Tables([], [], [], []));
      FlagsClean(c.flags);
      UnpackPack(Flags(c.flags), tail);
    } else {
      assert p[13..] == PackWords(c.words) + tail;
      UnpackPackWords(c.words, tail);
    }
  }

  lemma MultipleHeard(c: Call, id: word, slave: byte, t: Tables, b: Buffers)
    requires b.Sized() && (c.WriteCoils? || c.WriteRegisters?) && !TooMany(c)
    ensures var h := Converse(c, id, slave, t, b);
      h.left == [] && (Answer(c, id, slave, t, b).tables, Result(h.ret, [])) == Plain(c, t)
  {
    hide *;
    MultipleQuery(c);
    PlainMultiple(c, t);
    QuerySuits(c, id, slave, t, b);
    QueryData(c, id, slave, b);
    Conversation(c, id, slave, t, b);
    var q := QueryOf(c, id, slave);
    var p := Padded(q, b.slave);
    ServeMultiple(p, |q|, t);
    DataArrives(c, p, b.slave[|q|..]);
    if c.addr + Size(c) > if c.WriteCoils? then |t.coils| else |t.holding| {
      HearRefusal(q, p, ILLEGAL_DATA_ADDRESS, b.client);
    } else {
      HearConfirmation(q, p, c.addr, Size(c), b.client);
    }
  }

  // ---- Calls are array operations ------------------------------------------------------------------

  /** What a call stores and returns, from the judgement and the reply buffer. */
  function Outcome(c: Call, ret: int, r: seq<byte>): Result
    requires |r| == MAX_MESSAGE_LENGTH && !TooMany(c) && (c.ReadWords? ==> ret <= MAX_REGISTERS)
  {
    match c
    case ReadBits(_, _, nb) =>
      if ret < 0 then Result(ret, [])
      else Result(if ret > 0 then nb else ret, UnpackBits(r[9..], if 8 * ret < nb then 8 * ret else nb))
    case ReadWords(_, _, _) => Result(ret, if ret > 0 then UnpackWords(r[9..], ret) else [])
    case _ => Result(ret, [])
  }

  lemma RetSmall(c: Call, id: word, slave: byte, t: Tables, b: Buffers)
    requires b.Sized() && !TooMany(c) && c.ReadWords?
    ensures Converse(c, id, slave, t, b).ret <= MAX_REGISTERS
  {
    ReadWordsHeard(c, id, slave, t, b);
    hide Converse, Answer;
  }

  /** A call over the wire: the slave's tables afterwards and the call's result. */
  function Transact(c: Call, id: word, slave: byte, t: Tables, b: Buffers): (Tables, Result)
    requires b.Sized()
  {
    if TooMany(c) then (t, Result(TOO_MANY_DATA, []))
    else
      var h := Converse(c, id, slave, t, b);
      if c.ReadWords? then
        RetSmall(c, id, slave, t, b);
        (Answer(c, id, slave, t, b).tables, Outcome(c, h.ret, h.buffer))
      else (Answer(c, id, slave, t, b).tables, Outcome(c, h.ret, h.buffer))
  }

  /**
   * When a call over the wire is the array operation: a read of coils or inputs needs cells of 0 or 1, and a read
   * outside the table must ask for at least one cell, or the refusal is as long as the reply that was expected.
   */
  ghost predicate Faithful(c: Call, t: Tables) {
    match c
    case ReadBits(_, addr, nb) =>
      TooMany(c) || (if addr + nb > |BitTable(c, t)| then nb > 0 else Clean(BitTable(c, t)[addr..addr + nb]))
    case ReadWords(_, addr, nb) => TooMany(c) || addr + nb <= |WordTable(c, t)| || nb > 0
    case _ => true
  }

  lemma OutcomeOfBits(c: Call, t: Tables, ret: int, r: seq<byte>, tail: seq<byte>)
    requires c.ReadBits? && !TooMany(c) && c.addr + c.nb <= |BitTable(c, t)| && |r| == MAX_MESSAGE_LENGTH
    requires ret == Bytes(c.nb) && r[9..] == PackBits(BitTable(c, t)[c.addr..c.addr + c.nb]) + tail
    ensures (t, Outcome(c, ret, r)) == Plain(c, t) <==> Clean(BitTable(c, t)[c.addr..c.addr + c.nb])
  {
    var cells := BitTable(c, t)[c.addr..c.addr + c.nb];
    UnpackPackExactly(cells, tail);
    hide UnpackBits, PackBits, Clean;
    assert Outcome(c, ret, r) == Result(c.nb, UnpackBits(PackBits(cells) + tail, c.nb));
    assert Plain(c, t) == (t, Result(c.nb, cells));
  }

  lemma OutcomeOfWords(c: Call, t: Tables, ret: int, r: seq<byte>, tail: seq<byte>)
    requires c.ReadWords? && !TooMany(c) && c.addr + c.nb <= |WordTable(c, t)| && |r| == MAX_MESSAGE_LENGTH
    requires ret == c.nb && r[9..] == PackWords(WordTable(c, t)[c.addr..c.addr + c.nb]) + tail
    ensures (t, Outcome(c, ret, r)) == Plain(c, t)
  {
    var words := WordTable(c, t)[c.addr..c.addr + c.nb];
    UnpackPackWords(words, tail);
    hide UnpackWords, PackWords;
    assert Outcome(c, ret, r) == Result(c.nb, if c.nb > 0 then UnpackWords(PackWords(words) + tail, c.nb) else []);
    assert Plain(c, t) == (t, Result(c.nb, words));
  }

  lemma OutcomeOfRefusal(c: Call, t: Tables, ret: int, r: seq<byte>)
    requires (c.ReadBits? && c.addr + c.nb > |BitTable(c, t)|) || (c.ReadWords? && c.addr + c.nb > |WordTable(c, t)|)
    requires !TooMany(c) && |r| == MAX_MESSAGE_LENGTH && ret == if c.nb == 0 then 1 else ILLEGAL_DATA_ADDRESS
    ensures (t, Outcome(c, ret, r)) == Plain(c, t) <==> c.nb > 0
  {
    assert Plain(c, t) == (t, Result(ILLEGAL_DATA_ADDRESS, []));
    assert Outcome(c, ret, r).ret == if c.nb > 0 then ILLEGAL_DATA_ADDRESS else if c.ReadBits? then 0 else 1;
    hide UnpackBits, UnpackWords;
  }

  lemma TransactIs(c: Call, id: word, slave: byte, t: Tables, b: Buffers)
    requires b.Sized() && !TooMany(c)
    ensures |b.client| == MAX_MESSAGE_LENGTH
    ensures var h := Converse(c, id, slave, t, b);
      && |h.buffer| == MAX_MESSAGE_LENGTH && (c.ReadWords? ==> h.ret <= MAX_REGISTERS)
      && Transact(c, id, slave, t, b) == (Answer(c, id, slave, t, b).tables, Outcome(c, h.ret, h.buffer))
  {
    if c.ReadWords? {
      RetSmall(c, id, slave, t, b);
    }
    hide Converse, Answer, Outcome, TooMany;
  }

  lemma FaithfulReads(c: Call, t: Tables)
    requires !TooMany(c)
    ensures c.ReadBits? ==> (Faithful(c, t) <==> if c.addr + c.nb > |BitTable(c, t)| then c.nb > 0
                                                 else Clean(BitTable(c, t)[c.addr..c.addr + c.nb]))
    ensures c.ReadBits? ==> 9 + Bytes(c.nb) <= MAX_MESSAGE_LENGTH
    ensures c.ReadWords? ==> 9 + 2 * c.nb <= MAX_MESSAGE_LENGTH
    ensures c.ReadWords? ==> (Faithful(c, t) <==> c.addr + c.nb <= |WordTable(c, t)| || c.nb > 0)
  {
  }

  lemma TransactBits(c: Call, id: word, slave: byte, t: Tables, b: Buffers)
    requires b.Sized() && !TooMany(c) && c.ReadBits?
    ensures Transact(c, id, slave, t, b) == Plain(c, t) <==> Faithful(c, t)
  {
    hide *;
    TransactIs(c, id, slave, t, b);
    FaithfulReads(c, t);
    ReadBitsHeard(c, id, slave, t, b);
    var h := Converse(c, id, slave, t, b);
    if c.addr + c.nb > |BitTable(c, t)| {
      OutcomeOfRefusal(c, t, h.ret, h.buffer);
    } else {
      OutcomeOfBits(c, t, h.ret, h.buffer, b.client[9 + Bytes(c.nb)..]);
    }
  }

  lemma TransactWords(c: Call, id: word, slave: byte, t: Tables, b: Buffers)
    requires b.Sized() && !TooMany(c) && c.ReadWords?
    ensures Transact(c, id, slave, t, b) == Plain(c, t) <==> Faithful(c, t)
  {
    hide *;
    TransactIs(c, id, slave, t, b);
    FaithfulReads(c, t);
    ReadWordsHeard(c, id, slave, t, b);
    var h := Converse(c, id, slave, t, b);
    if c.addr + c.nb > |WordTable(c, t)| {
      OutcomeOfRefusal(c, t, h.ret, h.buffer);
    } else {
      OutcomeOfWords(c, t, h.ret, h.buffer, b.client[9 + 2 * c.nb..]);
    }
  }

  /**
   * Every call over the wire, whatever its arguments and whatever the buffers held, is the operation on the slave's
   * arrays exactly when it is Faithful: values, tables and error codes.
   */
  lemma TransactExactly(c: Call, id: word, slave: byte, t: Tables, b: Buffers)
    requires b.Sized()
    ensures Transact(c, id, slave, t, b) == Plain(c, t) <==> Faithful(c, t)
  {
    if TooMany(c) {
    } else if c.ReadBits? {
      TransactBits(c, id, slave, t, b);
    } else if c.ReadWords? {
      TransactWords(c, id, slave, t, b);
    } else if c.WriteCoil? || c.WriteRegister? {
      SingleHeard(c, id, slave, t, b);
      hide Converse, Answer, Plain;
    } else {
      MultipleHeard(c, id, slave, t, b);
      hide Converse, Answer, Plain;
    }
  }

  /** A reply is consumed whole: nothing of it is left for the next call. */
  lemma NothingLeft(c: Call, id: word, slave: byte, t: Tables, b: Buffers)
    requires b.Sized() && !TooMany(c)
    ensures Converse(c, id, slave, t, b).left == []
  {
    hide *;
    if c.ReadBits? {
      ReadBitsHeard(c, id, slave, t, b);
    } else if c.ReadWords? {
      ReadWordsHeard(c, id, slave, t, b);
    } else if c.WriteCoil? || c.WriteRegister? {
      SingleHeard(c, id, slave, t, b);
    } else {
      MultipleHeard(c, id, slave, t, b);
    }
  }

  // ---- Whole sessions ------------------------------------------------------------------------------

  function NextId(id: word): word {
    if id < 65535 then id + 1 else 0
  }

  /** Calls made one after the other, and the state of the receiving buffers at each. */
  function Session(calls: seq<Call>, bs: seq<Buffers>, id: word, slave: byte, t: Tables): (Tables, seq<Result>)
    requires |bs| == |calls| && forall i | 0 <= i < |bs| :: bs[i].Sized()
    decreases |calls|
  {
    if calls == [] then (t, [])
    else
      var one := Transact(calls[0], NextId(id), slave, t, bs[0]);
      var more := Session(calls[1..], bs[1..], if TooMany(calls[0]) then id else NextId(id), slave, one.0);
      (more.0, [one.1] + more.1)
  }

  function PlainSession(calls: seq<Call>, t: Tables): (Tables, seq<Result>)
    decreases |calls|
  {
    if calls == [] then (t, [])
    else
      var one := Plain(calls[0], t);
      var more := PlainSession(calls[1..], one.0);
      (more.0, [one.1] + more.1)
  }

  /** Whatever a call hears, it does to the tables what the array operation does. */
  lemma TransactTables(c: Call, id: word, slave: byte, t: Tables, b: Buffers)
    requires b.Sized()
    ensures Transact(c, id, slave, t, b).0 == Plain(c, t).0
  {
    TransactExactly(c, id, slave, t, b);
    PlainReads(c, t);
    if !TooMany(c) { TransactIs(c, id, slave, t, b); }
    hide Transact, Converse, Answer, Plain, Outcome;
    if c.ReadBits? && !TooMany(c) {
      ReadBitsHeard(c, id, slave, t, b);
    } else if c.ReadWords? && !TooMany(c) {
      ReadWordsHeard(c, id, slave, t, b);
    }
  }

  lemma PlainReads(c: Call, t: Tables)
    ensures c.ReadBits? || c.ReadWords? || TooMany(c) ==> Plain(c, t).0 == t
    ensures !(c.ReadBits? || c.ReadWords?) || TooMany(c) ==> Faithful(c, t)
  {
  }

  /** Every call is faithful for the tables it finds. */
  ghost predicate AllFaithful(calls: seq<Call>, t: Tables)
    decreases |calls|
  {
    calls == [] || (Faithful(calls[0], t) && AllFaithful(calls[1..], Plain(calls[0], t).0))
  }

  lemma PairsEqual(a: Result, x: seq<Result>, b: Result, y: seq<Result>)
    ensures [a] + x == [b] + y <==> a == b && x == y
  {
    assert ([a] + x)[0] == a && ([a] + x)[1..] == x;
    assert ([b] + y)[0] == b && ([b] + y)[1..] == y;
  }

  /**
   * Whatever a client calls, in whatever order, inside the tables and outside: the slave's tables are those of four
   * plain arrays, and all results are the plain ones exactly if every call is faithful for the tables it finds.
   */
  lemma {:induction false} SessionExactly(calls: seq<Call>, bs: seq<Buffers>, id: word, slave: byte, t: Tables)
    requires |bs| == |calls| && forall i | 0 <= i < |bs| :: bs[i].Sized()
    ensures Session(calls, bs, id, slave, t).0 == PlainSession(calls, t).0
    ensures Session(calls, bs, id, slave, t) == PlainSession(calls, t) <==> AllFaithful(calls, t)
    decreases |calls|
  {
    if calls != [] {
      var c := calls[0];
      var next := if TooMany(c) then id else NextId(id);
      var one, plain := Transact(c, NextId(id), slave, t, bs[0]), Plain(c, t);
      TransactExactly(c, NextId(id), slave, t, bs[0]);
      TransactTables(c, NextId(id), slave, t, bs[0]);
      SessionExactly(calls[1..], bs[1..], next, slave, plain.0);
      PairsEqual(one.1, Session(calls[1..], bs[1..], next, slave, plain.0).1,
                 plain.1, PlainSession(calls[1..], plain.0).1);
      hide Transact, Plain, TooMany, Faithful;
    }
  }

  ghost predicate CleanTables(t: Tables) {
    Clean(t.coils) && Clean(t.inputs)
  }

  /** A read asks for something. */
  predicate Asks(c: Call) {
    (c.ReadBits? || c.ReadWords?) ==> c.nb > 0
  }

  /** No call touches an input table or the size of a table, and coils stay 0 or 1. */
  lemma PlainKeeps(c: Call, t: Tables)
    requires CleanTables(t)
    ensures var u := Plain(c, t).0;
      && CleanTables(u) && u.inputs == t.inputs && u.inputRegisters == t.inputRegisters
      && |u.coils| == |t.coils| && |u.holding| == |t.holding|
  {
    if c.WriteCoils? {
      FlagsClean(c.flags);
    }
  }

  lemma SliceClean(c: Call, t: Tables)
    requires CleanTables(t) && c.ReadBits? && c.addr + c.nb <= |BitTable(c, t)|
    ensures Clean(BitTable(c, t)[c.addr..c.addr + c.nb])
  {
    var table := BitTable(c, t);
    var cells := table[c.addr..c.addr + c.nb];
    forall i | 0 <= i < |cells| ensures cells[i] <= 1 {
      assert cells[i] == table[c.addr + i];
    }
  }

  /** Tables of 0 and 1 stay so, and reads that ask for something are faithful for them. */
  lemma {:induction false} CleanIsFaithful(calls: seq<Call>, t: Tables)
    requires CleanTables(t) && forall i | 0 <= i < |calls| :: Asks(calls[i])
    ensures AllFaithful(calls, t)
    ensures var u := PlainSession(calls, t).0;
      && CleanTables(u) && u.inputs == t.inputs && u.inputRegisters == t.inputRegisters
      && |u.coils| == |t.coils| && |u.holding| == |t.holding|
    decreases |calls|
  {
    if calls != [] {
      var c := calls[0];
      PlainKeeps(c, t);
      if c.ReadBits? && c.addr + c.nb <= |BitTable(c, t)| {
        SliceClean(c, t);
      }
      hide Plain, TooMany, CleanTables;
      CleanIsFaithful(calls[1..], Plain(c, t).0);
    }
  }

  /** In particular the slave behaves as four plain arrays if cells start as 0 or 1 and every read asks for something;
      the input tables never change, and the coils stay 0 or 1. */
  lemma SessionIsPlain(calls: seq<Call>, bs: seq<Buffers>, id: word, slave: byte, t: Tables)
    requires |bs| == |calls| && forall i | 0 <= i < |bs| :: bs[i].Sized()
    requires CleanTables(t) && forall i | 0 <= i < |calls| :: Asks(calls[i])
    ensures Session(calls, bs, id, slave, t) == PlainSession(calls, t)
    ensures var u := PlainSession(calls, t).0;
      && CleanTables(u) && u.inputs == t.inputs && u.inputRegisters == t.inputRegisters
      && |u.coils| == |t.coils| && |u.holding| == |t.holding|
  {
    SessionExactly(calls, bs, id, slave, t);
    CleanIsFaithful(calls, t);
    hide Session, PlainSession, CleanTables;
  }
}

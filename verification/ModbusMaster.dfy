/**
 * The client and the slave process at the two ends of a connection. While the client waits for its reply the slave
 * runs; what the client's calls then do to the slave's arrays and return is the conversation of ModbusTheorems.
 */
module ModbusMaster {
  import opened Bitwise
  import opened ModbusSpec
  import opened ModbusCalls
  import opened ModbusTheorems
  import opened ModbusLine
  import opened ModbusSlave
  import opened ModbusServe
  import opened ModbusClient

  /** The slave process: its tables and its query buffer. */
  class Slave {
    const mapping: Mapping
    const query: array<byte>

    constructor (mapping: Mapping)
      requires mapping.Valid()
      ensures Valid() && this.mapping == mapping && fresh(query)
    {
      this.mapping := mapping;
      query := new byte[MAX_MESSAGE_LENGTH];
    }

    ghost predicate Valid() {
      mapping.Valid() && mapping.Apart(query) && query.Length == MAX_MESSAGE_LENGTH
    }

    /** One turn of the server loop: a query is awaited and served. */
    method Turn(up: Line, down: Line)
      requires Valid() && up != down
      requires var r := ReceiveQuery(TCP, up.bytes, up.end);
        r.code == 0 ==> |r.msg| <= MAX_MESSAGE_LENGTH && Fits(Padded(r.msg, query[..]), |r.msg|, mapping.Abs())
      modifies up, down, query, mapping.coils, mapping.holding
      ensures var r := ReceiveQuery(TCP, old(up.bytes), up.end);
        && up.bytes == r.rest
        && (r.code != 0 ==> mapping.Abs() == old(mapping.Abs()) && down.bytes == old(down.bytes))
        && (r.code == 0 ==>
              var served := Serve(Padded(r.msg, old(query[..])), |r.msg|, old(mapping.Abs()));
              mapping.Abs() == served.tables && down.bytes == old(down.bytes) + served.reply)
    {
      ghost var r, stale, t := ReceiveQuery(TCP, up.bytes, up.end), query[..], mapping.Abs();
      var ret, length := ReceiveMsg(TCP, up, MSG_LENGTH_UNDEFINED, query, 0);
      assert mapping.Abs() == t;
      hide Padded, Fits, Serve, ReceiveQuery;
      if ret == 0 {
        ManageQuery(query, length, mapping, down);
      }
    }
  }

  // ---- Queries -------------------------------------------------------------------------------------

  /** The twelve bytes at the head of a query, but for the length field. */
  ghost predicate Asked(b: seq<byte>, id: word, slave: byte, f: byte, addr: word, nb: word) {
    && |b| >= 12
    && b[0] == Hi(id) && b[1] == Lo(id) && b[2] == 0 && b[3] == 0
    && b[6] == slave && b[7] == f && b[8] == Hi(addr) && b[9] == Lo(addr) && b[10] == Hi(nb) && b[11] == Lo(nb)
  }

  lemma DraftedQuery(b: seq<byte>, id: word, slave: byte, f: byte, addr: word, nb: word, data: seq<byte>)
    requires Asked(b, id, slave, f, addr, nb) && 12 + |data| <= |b| && |data| < 256 && b[12..12 + |data|] == data
    ensures Drafted(b, 12 + |data|, Query(id, slave, f, addr, nb, data))
  {
    var head, fixed := [Hi(id), Lo(id), 0, 0], [slave, f, Hi(addr), Lo(addr), Hi(nb), Lo(nb)];
    hide Hi, Lo;
    assert b[..4] == head;
    assert b[6..12] == fixed;
    assert b[6..12 + |data|] == b[6..12] + b[12..12 + |data|];
    DraftedMessage(b, head, fixed + data);
  }

  /** The reply asked for and the judgement depend on the head of the query only. */
  lemma SameQuestion(q: seq<byte>, p: seq<byte>, code: int, r: seq<byte>, s: seq<byte>, n: int)
    requires |q| >= 12 && |p| >= 12 && q[7] == p[7] && q[10] == p[10] && q[11] == p[11]
    requires |r| >= 12 && |s| >= 12 && r[..12] == s[..12]
    ensures ResponseLength(q) == ResponseLength(p) && Judge(q, code, r, n) == Judge(p, code, s, n)
  {
    assert r[7] == r[..12][7] == s[7] && r[8] == r[..12][8] == s[8];
    assert r[10] == r[..12][10] == s[10] && r[11] == r[..12][11] == s[11];
    assert Count(q) == Count(p);
    hide Count, Bytes;
  }

  lemma ServeReplies(p: seq<byte>, n: nat, t: Tables)
    requires Fits(p, n, t) && (1 <= p[7] <= 6 || Multiple(p[7]))
    ensures Serve(p, n, t).reply != []
  {
    hide Address, Count, Within, UnpackBits, UnpackWords, Splice, PackBits, PackWords, Bytes;
  }

  lemma KnownFunction(c: Call)
    ensures 1 <= FunctionOf(c) <= 6 || Multiple(FunctionOf(c))
  {
  }

  lemma AnswerNotEmpty(c: Call, id: word, slave: byte, t: Tables, b: Buffers)
    requires b.Sized() && !TooMany(c)
    ensures Answer(c, id, slave, t, b).reply != []
  {
    hide *;
    QuerySuits(c, id, slave, t, b);
    Conversation(c, id, slave, t, b);
    KnownFunction(c);
    var q := QueryOf(c, id, slave);
    ServeReplies(Padded(q, b.slave), |q|, t);
  }

  // ---- Replies -------------------------------------------------------------------------------------

  /** What the judgement goes by when not a single byte arrives in time: the length, which is then never set. */
  function Heard(pending: seq<byte>, end: End, got: nat, unset: int): int {
    if pending == [] && end.Silent? then unset else got
  }

  /** A line that stays silent is a time-out, unless the length left unset happens to be that of an exception and the
      reply buffer still holds one to the function asked for. */
  lemma SilentLine(q: seq<byte>, r: seq<byte>, unset: int)
    requires |q| >= 12 && |r| >= 12
    ensures Judge(q, COMM_TIME_OUT, r, Heard([], Silent, 0, unset)) == COMM_TIME_OUT
            <==> !(unset == 9 && q[7] as int + 0x80 == r[7])
  {
  }

  /** Receives the reply to a query and judges it; `unset` is what the length holds before it is set. */
  method ModbusReceive(query: array<byte>, down: Line, response: array<byte>, unset: int) returns (ret: int)
    requires 12 <= query.Length && 12 <= response.Length && 0 < ResponseLength(query[..]) <= response.Length
    requires query != response
    modifies down, response
    ensures var r := TakeExactly(ResponseLength(query[..]), old(down.bytes), down.end);
      && |r.msg| <= response.Length && down.bytes == r.rest && response[..] == Padded(r.msg, old(response[..]))
      && ret == Judge(query[..], r.code, response[..], Heard(old(down.bytes), down.end, |r.msg|, unset))
  {
    var responseLengthComputed := ResponseLength(query[..]);
    ghost var q := query[..];
    hide Judge, ResponseLength, Padded;
    var responseLength;
    ret, responseLength := ReceiveMsg(TCP, down, responseLengthComputed, response, unset);
    assert query[..] == q;
    ret := Judge(query[..], ret, response[..], responseLength);
  }

  lemma PaddedPrefix(m: seq<byte>, stale: seq<byte>, more: seq<byte>)
    requires |m| <= |stale|
    ensures Padded(m, stale + more)[..|stale|] == Padded(m, stale)
  {
  }

  function Filler(n: nat): seq<byte>
    requires n <= MAX_MESSAGE_LENGTH
  {
    seq(MAX_MESSAGE_LENGTH - n, i => 0)
  }

  /** What the client hears, with a reply buffer that may be shorter than the longest message. */
  lemma HearInBuffer(q: seq<byte>, p: seq<byte>, reply: seq<byte>, stale: seq<byte>)
    requires |q| >= 12 && |p| >= |q| && p[..|q|] == q
    requires 12 <= |stale| <= MAX_MESSAGE_LENGTH && 0 < ResponseLength(q) <= |stale|
    ensures ResponseLength(p) == ResponseLength(q)
    ensures var r := TakeExactly(ResponseLength(q), reply, Silent); var h := Hear(q, reply, stale + Filler(|stale|));
      && |r.msg| <= |stale| && h.left == r.rest && h.buffer[..|stale|] == Padded(r.msg, stale)
      && h.ret == Judge(p, r.code, Padded(r.msg, stale), |r.msg|)
  {
    var r, more := TakeExactly(ResponseLength(q), reply, Silent), Filler(|stale|);
    assert p[7] == q[7] && p[10] == q[10] && p[11] == q[11];
    assert |stale + more| == MAX_MESSAGE_LENGTH;
    PaddedPrefix(r.msg, stale, more);
    var whole, part := Padded(r.msg, stale + more), Padded(r.msg, stale);
    hide Padded, ResponseLength, Judge, Filler;
    assert whole[..12] == whole[..|stale|][..12] == part[..12];
    SameQuestion(q, p, r.code, whole, part, |r.msg|);
  }

  // ---- The client ----------------------------------------------------------------------------------

  class Master {
    var tId: word
    const up: Line
    const down: Line
    const slave: Slave
    const slaveId: byte

    constructor (slave: Slave, slaveId: byte)
      requires slave.Valid()
      ensures InStep() && fresh(up) && fresh(down) && tId == 0 && this.slave == slave && this.slaveId == slaveId
    {
      this.slave, this.slaveId, tId := slave, slaveId, 0;
      up := new Line(Silent);
      down := new Line(Silent);
    }

    /** Nothing is under way. */
    ghost predicate InStep()
      reads up, down
    {
      slave.Valid() && up != down && up.end == down.end == Silent && up.bytes == down.bytes == []
    }

    /** A buffer of the client: nobody else's. */
    ghost predicate Own(a: array<byte>) {
      slave.mapping.Apart(a) && a != slave.query
    }

    /** Sends a drafted query and lets the slave answer it. */
    method Ask(query: array<byte>, n: nat, ghost c: Call, ghost b: Buffers)
      requires InStep() && !TooMany(c) && Own(query) && 12 <= query.Length
      requires b.Sized() && b.slave == slave.query[..]
      requires Drafted(query[..], n, QueryOf(c, tId, slaveId))
      modifies up, down, slave.query, slave.mapping.coils, slave.mapping.holding, query
      ensures up.bytes == [] && n <= query.Length && query[..n] == QueryOf(c, tId, slaveId)
      ensures var served := Answer(c, tId, slaveId, old(slave.mapping.Abs()), b);
        slave.mapping.Abs() == served.tables && down.bytes == served.reply
    {
      ghost var q, t := QueryOf(c, tId, slaveId), slave.mapping.Abs();
      QuerySuits(c, tId, slaveId, t, b);
      Conversation(c, tId, slaveId, t, b);
      assert [] + q == q;
      assert slave.Valid() && slave.mapping.Valid() && Silent == up.end;
      SentWhole(query[..], n, q);
      hide *;
      var sent := ModbusSend(up, query, n);
      assert query[..][..n] == q && up.bytes == q && slave.mapping.Abs() == t;
      slave.Turn(up, down);
      assert query[..n] == q;
    }

    /** Sends a drafted query, lets the slave answer, receives the reply and judges it. */
    method Exchange(query: array<byte>, n: nat, response: array<byte>, ghost c: Call)
        returns (ret: int, ghost b: Buffers)
      requires InStep() && !TooMany(c) && Own(query) && Own(response) && query != response
      requires 12 <= query.Length && 12 <= response.Length <= MAX_MESSAGE_LENGTH && Wanted(c) <= response.Length
      requires Drafted(query[..], n, QueryOf(c, tId, slaveId))
      modifies up, down, slave.query, slave.mapping.coils, slave.mapping.holding, query, response
      ensures InStep() && b.Sized()
      ensures var t := old(slave.mapping.Abs()); var h := Converse(c, tId, slaveId, t, b);
        && slave.mapping.Abs() == Answer(c, tId, slaveId, t, b).tables
        && ret == h.ret && response[..] == h.buffer[..response.Length]
    {
      ghost var q, t, stale := QueryOf(c, tId, slaveId), slave.mapping.Abs(), response[..];
      b := Buffers(slave.query[..], stale + Filler(|stale|));
      assert b.Sized() && slave.Valid() && slave.mapping.Valid() && up.end == down.end == Silent;
      Ask(query, n, c, b);
      QuerySuits(c, tId, slaveId, t, b);
      Conversation(c, tId, slaveId, t, b);
      AnswerNotEmpty(c, tId, slaveId, t, b);
      NothingLeft(c, tId, slaveId, t, b);
      hide *;
      ghost var tables := slave.mapping.Abs();
      assert query[..][..n] == q;
      HearInBuffer(q, query[..], down.bytes, stale);
      var unset: int := *;
      ret := ModbusReceive(query, down, response, unset);
      assert slave.mapping.Abs() == tables;
      StillInStep();
    }

    lemma StillInStep()
      requires slave.Valid() && up != down && up.end == down.end == Silent && up.bytes == down.bytes == []
      ensures InStep()
    {
    }

    // ---- Calls -------------------------------------------------------------------------------------

    method BuildQueryBasis(f: byte, addr: word, nb: word, query: array<byte>) returns (n: nat)
      requires query.Length >= 12
      modifies `tId, query
      ensures n == 12 && tId == NextId(old(tId)) && Asked(query[..], tId, slaveId, f, addr, nb)
    {
      if tId < 65535 {
        tId := tId + 1;
      } else {
        tId := 0;
      }
      query[0], query[1] := Hi(tId), Lo(tId);
      query[2], query[3] := 0, 0;
      query[6], query[7] := slaveId, f;
      query[8], query[9] := Hi(addr), Lo(addr);
      query[10], query[11] := Hi(nb), Lo(nb);
      n := 12;
    }

    /** A call whose query has no data of its own. */
    method Simple(f: byte, addr: word, nb: word, response: array<byte>, ghost c: Call)
        returns (ret: int, ghost b: Buffers)
      requires InStep() && Own(response) && !TooMany(c) && Payload(c) == []
      requires f == FunctionOf(c) && addr == c.addr && nb == ValueOf(c)
      requires 12 <= response.Length <= MAX_MESSAGE_LENGTH && Wanted(c) <= response.Length
      modifies this`tId, up, down, slave.query, slave.mapping.coils, slave.mapping.holding, response
      ensures InStep() && b.Sized() && tId == NextId(old(tId))
      ensures var t := old(slave.mapping.Abs()); var h := Converse(c, tId, slaveId, t, b);
        && slave.mapping.Abs() == Answer(c, tId, slaveId, t, b).tables
        && ret == h.ret && response[..] == h.buffer[..response.Length]
    {
      ghost var t := slave.mapping.Abs();
      var query := new byte[12];
      assert slave.mapping.Apart(query) && query != slave.query;
      hide *;
      var n := BuildQueryBasis(f, addr, nb, query);
      DraftedRead(c, query[..], tId, slaveId);
      assert slave.mapping.Abs() == t;
      ret, b := Exchange(query, n, response, c);
    }

    /** Reads coils or inputs: the number of bytes they came in, or an error. */
    method ReadIoStatus(f: byte, addr: word, nb: word, dest: array<byte>, ghost c: Call)
        returns (ret: int, ghost b: Buffers)
      requires InStep() && Own(dest) && !TooMany(c) && c.ReadBits? && f == FunctionOf(c) && addr == c.addr && nb == c.nb
      requires nb <= dest.Length
      modifies this`tId, up, down, slave.query, slave.mapping.coils, slave.mapping.holding, dest
      ensures InStep() && b.Sized() && tId == NextId(old(tId))
      ensures var t := old(slave.mapping.Abs()); var r := Transact(c, tId, slaveId, t, b);
        && slave.mapping.Abs() == r.0 && r.1.ret == (if ret > 0 then nb else ret)
        && Stored(dest[..], old(dest[..]), r.1.data)
    {
      ghost var t, before := slave.mapping.Abs(), dest[..];
      var response := new byte[MAX_MESSAGE_LENGTH];
      BitsAsked(c);
      assert slave.mapping.Apart(response) && response != slave.query;
      hide *;
      ret, b := Simple(f, addr, nb, response, c);
      assert dest[..] == before;
      BitsStored(c, tId, slaveId, t, b, before, response[..]);
      ghost var tables := slave.mapping.Abs();
      if ret >= 0 {
        UnpackStatus(response, ret, nb, dest);
      }
      assert slave.mapping.Abs() == tables;
    }

    /** Reads coils or inputs into flags. */
    method ReadStatus(input: bool, addr: word, nb: nat, dest: array<byte>) returns (status: int, ghost b: Buffers)
      requires InStep() && Own(dest) && nb <= dest.Length
      modifies this`tId, up, down, slave.query, slave.mapping.coils, slave.mapping.holding, dest
      ensures InStep() && b.Sized() && tId == if nb > MAX_STATUS then old(tId) else NextId(old(tId))
      ensures var r := Transact(ReadBits(input, addr, nb), tId, slaveId, old(slave.mapping.Abs()), b);
        slave.mapping.Abs() == r.0 && status == r.1.ret && Stored(dest[..], old(dest[..]), r.1.data)
    {
      ghost var c := ReadBits(input, addr, nb);
      if nb > MAX_STATUS {
        NothingStored(dest[..]);
        b := SomeBuffers();
        return TOO_MANY_DATA, b;
      }
      assert FunctionOf(c) == if input then READ_INPUT_STATUS else READ_COIL_STATUS;
      hide Transact, Stored;
      status, b := ReadIoStatus(if input then READ_INPUT_STATUS else READ_COIL_STATUS, addr, nb, dest, c);
      if status > 0 {
        status := nb;
      }
    }

    /** Reads registers into words. */
    method ReadRegisters(input: bool, addr: word, nb: nat, dest: array<word>) returns (ret: int, ghost b: Buffers)
      requires InStep() && slave.mapping.Apart(dest) && dest as object != slave.query
      requires nb <= dest.Length && 1 <= dest.Length
      modifies this`tId, up, down, slave.query, slave.mapping.coils, slave.mapping.holding, dest
      ensures InStep() && b.Sized() && tId == if nb > MAX_REGISTERS then old(tId) else NextId(old(tId))
      ensures var r := Transact(ReadWords(input, addr, nb), tId, slaveId, old(slave.mapping.Abs()), b);
        slave.mapping.Abs() == r.0 && ret == r.1.ret && Stored(dest[..], old(dest[..]), r.1.data)
    {
      ghost var c, t, before := ReadWords(input, addr, nb), slave.mapping.Abs(), dest[..];
      if nb > MAX_REGISTERS {
        NothingStored(before);
        b := SomeBuffers();
        return TOO_MANY_DATA, b;
      }
      var response := new byte[MAX_MESSAGE_LENGTH];
      var f := if input then READ_INPUT_REGISTERS else READ_HOLDING_REGISTERS;
      WordsAsked(c);
      assert !TooMany(c) && FunctionOf(c) == f && slave.mapping.Apart(response) && response != slave.query;
      hide *;
      ret, b := Simple(f, addr, nb, response, c);
      assert dest[..] == before;
      WordsStored(c, tId, slaveId, t, b, before, response[..]);
      ghost var tables := slave.mapping.Abs();
      if ret > 0 {
        SetRegistersFromBytes(dest, 0, ret, response, 9);
      }
      assert slave.mapping.Abs() == tables;
    }

    /** Writes one coil or one register. */
    method SetSingle(f: byte, addr: word, value: word, ghost c: Call)
        returns (ret: int, ghost b: Buffers)
      requires InStep() && (c.WriteCoil? || c.WriteRegister?)
      requires !TooMany(c) && f == FunctionOf(c) && addr == c.addr && value == ValueOf(c)
      modifies this`tId, up, down, slave.query, slave.mapping.coils, slave.mapping.holding
      ensures InStep() && b.Sized() && tId == NextId(old(tId))
      ensures (slave.mapping.Abs(), Result(ret, [])) == Transact(c, tId, slaveId, old(slave.mapping.Abs()), b)
    {
      ghost var t := slave.mapping.Abs();
      var response := new byte[12];
      SingleQuery(c);
      NoData(c);
      assert slave.mapping.Apart(response) && response != slave.query && MAX_MESSAGE_LENGTH == 256;
      hide *;
      ret, b := Simple(f, addr, value, response, c);
      WriteStored(c, tId, slaveId, t, b);
    }

    method ForceSingleCoil(addr: word, state: int) returns (status: int, ghost b: Buffers)
      requires InStep()
      modifies this`tId, up, down, slave.query, slave.mapping.coils, slave.mapping.holding
      ensures InStep() && b.Sized() && tId == NextId(old(tId))
      ensures (slave.mapping.Abs(), Result(status, []))
              == Transact(WriteCoil(addr, state), tId, slaveId, old(slave.mapping.Abs()), b)
    {
      status, b := SetSingle(FORCE_SINGLE_COIL, addr, if state != 0 then 0xFF00 else 0, WriteCoil(addr, state));
    }

    method PresetSingleRegister(addr: word, value: word) returns (status: int, ghost b: Buffers)
      requires InStep()
      modifies this`tId, up, down, slave.query, slave.mapping.coils, slave.mapping.holding
      ensures InStep() && b.Sized() && tId == NextId(old(tId))
      ensures (slave.mapping.Abs(), Result(status, []))
              == Transact(WriteRegister(addr, value), tId, slaveId, old(slave.mapping.Abs()), b)
    {
      status, b := SetSingle(PRESET_SINGLE_REGISTER, addr, value, WriteRegister(addr, value));
    }

    /** A call whose query carries data, which is in place. */
    method Multiple(query: array<byte>, n: nat, ghost c: Call)
        returns (ret: int, ghost b: Buffers)
      requires InStep() && Own(query) && (c.WriteCoils? || c.WriteRegisters?) && !TooMany(c)
      requires 12 <= query.Length && Drafted(query[..], n, QueryOf(c, tId, slaveId))
      modifies up, down, slave.query, slave.mapping.coils, slave.mapping.holding, query
      ensures InStep() && b.Sized()
      ensures (slave.mapping.Abs(), Result(ret, [])) == Transact(c, tId, slaveId, old(slave.mapping.Abs()), b)
    {
      ghost var t := slave.mapping.Abs();
      var response := new byte[MAX_MESSAGE_LENGTH];
      MultipleQuery(c);
      assert slave.mapping.Apart(response) && response != slave.query && MAX_MESSAGE_LENGTH == 256;
      hide *;
      ret, b := Exchange(query, n, response, c);
      WriteStored(c, tId, slaveId, t, b);
    }

    method ForceMultipleCoils(addr: word, nb: nat, data: array<byte>) returns (ret: int, ghost b: Buffers)
      requires InStep() && nb <= data.Length && Own(data)
      modifies this`tId, up, down, slave.query, slave.mapping.coils, slave.mapping.holding
      ensures InStep() && b.Sized() && tId == if nb > MAX_STATUS then old(tId) else NextId(old(tId))
      ensures (slave.mapping.Abs(), Result(ret, []))
              == Transact(WriteCoils(addr, data[..nb]), tId, slaveId, old(slave.mapping.Abs()), b)
    {
      ghost var c, t := WriteCoils(addr, data[..nb]), slave.mapping.Abs();
      if nb > MAX_STATUS {
        b := SomeBuffers();
        return TOO_MANY_DATA, b;
      }
      var query := new byte[MAX_MESSAGE_LENGTH];
      CoilsAsked(c);
      assert Own(query) && MAX_MESSAGE_LENGTH == 256;
      hide *;
      var n := BuildQueryBasis(FORCE_MULTIPLE_COILS, addr, nb, query);
      ghost var q0 := query[..];
      var byteCount := Bytes(nb);
      Store(query, n, byteCount);
      n := n + 1;
      ghost var q1 := query[..];
      PackFlags(data, nb, query, n);
      n := n + byteCount;
      DraftedCoils(c, q0, q1, query[..], tId, slaveId);
      assert slave.mapping.Abs() == t;
      ret, b := Multiple(query, n, c);
    }

    method PresetMultipleRegisters(addr: word, nb: nat, data: array<word>) returns (ret: int, ghost b: Buffers)
      requires InStep() && nb <= data.Length && slave.mapping.Apart(data) && data as object != slave.query
      modifies this`tId, up, down, slave.query, slave.mapping.coils, slave.mapping.holding
      ensures InStep() && b.Sized() && tId == if nb > MAX_REGISTERS then old(tId) else NextId(old(tId))
      ensures (slave.mapping.Abs(), Result(ret, []))
              == Transact(WriteRegisters(addr, data[..nb]), tId, slaveId, old(slave.mapping.Abs()), b)
    {
      ghost var c, t := WriteRegisters(addr, data[..nb]), slave.mapping.Abs();
      if nb > MAX_REGISTERS {
        b := SomeBuffers();
        return TOO_MANY_DATA, b;
      }
      var query := new byte[MAX_MESSAGE_LENGTH];
      RegistersAsked(c);
      assert Own(query) && MAX_MESSAGE_LENGTH == 256;
      hide *;
      var n := BuildQueryBasis(PRESET_MULTIPLE_REGISTERS, addr, nb, query);
      ghost var q0 := query[..];
      var byteCount := 2 * nb;
      Store(query, n, byteCount);
      n := n + 1;
      ghost var q1 := query[..];
      assert data[0..0 + nb] == data[..nb];
      n := ResponseRegisters(0, nb, data, query, n, c.words);
      DraftedRegisters(c, q0, q1, query[..], tId, slaveId);
      assert slave.mapping.Abs() == t;
      ret, b := Multiple(query, n, c);
    }
  }

  lemma NoData(c: Call)
    requires !TooMany(c) && |Payload(c)| == 0
    ensures Payload(c) == []
  {
  }

  lemma WriteStored(c: Call, id: word, slave: byte, t: Tables, b: Buffers)
    requires b.Sized() && !TooMany(c) && !c.ReadBits? && !c.ReadWords?
    ensures var h := Converse(c, id, slave, t, b);
      (Answer(c, id, slave, t, b).tables, Result(h.ret, [])) == Transact(c, id, slave, t, b)
  {
    hide *;
    TransactIs(c, id, slave, t, b);
    var h := Converse(c, id, slave, t, b);
    OutcomeCases(c, h.ret, h.buffer);
  }

  lemma CoilsAsked(c: Call)
    requires c.WriteCoils? && |c.flags| <= MAX_STATUS
    ensures !TooMany(c) && FunctionOf(c) == FORCE_MULTIPLE_COILS && ValueOf(c) == |c.flags| < 65536
    ensures 13 + Bytes(|c.flags|) <= MAX_MESSAGE_LENGTH && Bytes(|c.flags|) < 256
  {
  }

  lemma RegistersAsked(c: Call)
    requires c.WriteRegisters? && |c.words| <= MAX_REGISTERS
    ensures !TooMany(c) && FunctionOf(c) == PRESET_MULTIPLE_REGISTERS && ValueOf(c) == |c.words| < 65536
    ensures 13 + 2 * |c.words| <= MAX_MESSAGE_LENGTH && 2 * |c.words| < 256
  {
  }

  /** The byte count and the data behind the head of a query. */
  lemma DraftedData(q0: seq<byte>, count: byte, data: seq<byte>, id: word, slave: byte, f: byte, addr: word, nb: word)
    requires |q0| == MAX_MESSAGE_LENGTH && Asked(q0, id, slave, f, addr, nb) && 13 + |data| <= |q0|
    ensures |q0[12 := count]| == |q0| && |data| < 255
    ensures Drafted(Splice(q0[12 := count], 13, data), 13 + |data|, Query(id, slave, f, addr, nb, [count] + data))
  {
    var q := Splice(q0[12 := count], 13, data);
    assert q[12..12 + |[count] + data|] == [count] + data;
    assert Asked(q, id, slave, f, addr, nb) by {
      assert q[..12] == q0[..12];
      assert forall k | 0 <= k < 12 :: q[k] == q[..12][k] == q0[k];
    }
    DraftedQuery(q, id, slave, f, addr, nb, [count] + data);
  }

  lemma DraftedCoils(c: Call, q0: seq<byte>, q1: seq<byte>, q: seq<byte>, id: word, slave: byte)
    requires c.WriteCoils? && !TooMany(c) && |q0| == MAX_MESSAGE_LENGTH
    requires Asked(q0, id, slave, FunctionOf(c), c.addr, ValueOf(c)) && q1 == q0[12 := Bytes(|c.flags|)]
    requires FlagsPacked(Flags(c.flags), q, 13, q1)
    ensures Drafted(q, 13 + Bytes(|c.flags|), QueryOf(c, id, slave))
  {
    MultipleQuery(c);
    var data := PackBits(Flags(c.flags));
    assert q == Splice(q1, 13, data);
    assert QueryOf(c, id, slave) == Query(id, slave, FunctionOf(c), c.addr, ValueOf(c), [Bytes(|c.flags|)] + data);
    assert 13 + |data| <= |q0|;
    hide *;
    DraftedData(q0, Bytes(|c.flags|), data, id, slave, FunctionOf(c), c.addr, ValueOf(c));
  }

  lemma DraftedRegisters(c: Call, q0: seq<byte>, q1: seq<byte>, q: seq<byte>, id: word, slave: byte)
    requires c.WriteRegisters? && !TooMany(c) && |q0| == MAX_MESSAGE_LENGTH
    requires Asked(q0, id, slave, FunctionOf(c), c.addr, ValueOf(c)) && q1 == q0[12 := 2 * |c.words|]
    requires 13 + |PackWords(c.words)| <= |q1| && q == Splice(q1, 13, PackWords(c.words))
    ensures Drafted(q, 13 + 2 * |c.words|, QueryOf(c, id, slave))
  {
    MultipleQuery(c);
    var data := PackWords(c.words);
    assert QueryOf(c, id, slave) == Query(id, slave, FunctionOf(c), c.addr, ValueOf(c), [2 * |c.words|] + data);
    hide *;
    DraftedData(q0, 2 * |c.words|, data, id, slave, FunctionOf(c), c.addr, ValueOf(c));
  }

  /** The data has been stored at the start of the destination. */
  ghost predicate Stored(now: seq<int>, was: seq<int>, data: seq<int>) {
    |data| <= |was| && now == data + was[|data|..]
  }

  lemma NothingStored(was: seq<int>)
    ensures Stored(was, was, [])
  {
  }

  ghost function SomeBuffers(): (b: Buffers)
    ensures b.Sized()
  {
    var z := seq(MAX_MESSAGE_LENGTH, i => 0);
    Buffers(z, z)
  }

  lemma DraftedRead(c: Call, b: seq<byte>, id: word, slave: byte)
    requires !TooMany(c) && Payload(c) == [] && |b| == 12 && Asked(b, id, slave, FunctionOf(c), c.addr, ValueOf(c))
    ensures Drafted(b, 12, QueryOf(c, id, slave))
  {
    DraftedQuery(b, id, slave, FunctionOf(c), c.addr, ValueOf(c), []);
  }

  lemma BitsAsked(c: Call)
    requires !TooMany(c) && c.ReadBits?
    ensures Payload(c) == [] && Wanted(c) <= MAX_MESSAGE_LENGTH && MAX_MESSAGE_LENGTH == 256 && ValueOf(c) == c.nb
  {
  }

  lemma WordsAsked(c: Call)
    requires !TooMany(c) && c.ReadWords?
    ensures Payload(c) == [] && Wanted(c) <= MAX_MESSAGE_LENGTH && MAX_MESSAGE_LENGTH == 256 && ValueOf(c) == c.nb
  {
  }

  lemma OutcomeCases(c: Call, ret: int, r: seq<byte>)
    requires |r| == MAX_MESSAGE_LENGTH && !TooMany(c) && (c.ReadWords? ==> ret <= MAX_REGISTERS)
    ensures c.ReadBits? && ret < 0 ==> Outcome(c, ret, r) == Result(ret, [])
    ensures c.ReadBits? && ret >= 0 ==>
              var n := if 8 * ret < c.nb then 8 * ret else c.nb;
              n <= 8 * |r[9..]| && Outcome(c, ret, r) == Result(if ret > 0 then c.nb else ret, UnpackBits(r[9..], n))
    ensures c.ReadWords? ==>
              2 * ret <= |r[9..]| && Outcome(c, ret, r) == Result(ret, if ret > 0 then UnpackWords(r[9..], ret) else [])
    ensures !c.ReadBits? && !c.ReadWords? ==> Outcome(c, ret, r) == Result(ret, [])
  {
    hide UnpackBits, UnpackWords;
  }

  lemma StoredBits(before: seq<byte>, bytes: seq<byte>, n: nat)
    requires n <= 8 * |bytes| && n <= |before|
    ensures |UnpackBits(bytes, n)| == n && Stored(Splice(before, 0, UnpackBits(bytes, n)), before, UnpackBits(bytes, n))
  {
  }

  lemma StoredWords(before: seq<word>, bytes: seq<byte>, n: nat)
    requires 2 * n <= |bytes| && n <= |before|
    ensures |UnpackWords(bytes, n)| == n
    ensures Stored(Splice(before, 0, UnpackWords(bytes, n)), before, UnpackWords(bytes, n))
  {
  }

  lemma SmallReply(nb: nat)
    requires nb <= MAX_STATUS
    ensures Bytes(nb) <= 100 && (nb == 0 ==> Bytes(nb) == 0) && ILLEGAL_DATA_ADDRESS < 0 && MAX_MESSAGE_LENGTH == 256
  {
  }

  /** What ReadIoStatus leaves, from what it hears. */
  lemma BitsStored(c: Call, id: word, slave: byte, t: Tables, b: Buffers, before: seq<byte>, r: seq<byte>)
    requires b.Sized() && !TooMany(c) && c.ReadBits? && c.nb <= |before|
    requires |r| == MAX_MESSAGE_LENGTH && r == Converse(c, id, slave, t, b).buffer[..|r|]
    ensures var ret := Converse(c, id, slave, t, b).ret; var u := Transact(c, id, slave, t, b);
      && u.0 == Answer(c, id, slave, t, b).tables && u.1.ret == (if ret > 0 then c.nb else ret)
      && (ret < 0 ==> Stored(before, before, u.1.data))
      && (ret >= 0 ==>
            && ret <= MAX_MESSAGE_LENGTH - 9 && ret <= (if c.nb == 0 then 1 else Bytes(c.nb))
            && var n := if 8 * ret < c.nb then 8 * ret else c.nb;
            && n <= 8 * |r[9..]| && Stored(Splice(before, 0, UnpackBits(r[9..], n)), before, u.1.data))
  {
    assert c.nb <= MAX_STATUS;
    hide *;
    SmallReply(c.nb);
    ReadBitsHeard(c, id, slave, t, b);
    TransactIs(c, id, slave, t, b);
    var ret := Converse(c, id, slave, t, b).ret;
    assert r == Converse(c, id, slave, t, b).buffer;
    OutcomeCases(c, ret, r);
    if ret < 0 {
      NothingStored(before);
    } else {
      StoredBits(before, r[9..], if 8 * ret < c.nb then 8 * ret else c.nb);
    }
  }

  lemma WordsStored(c: Call, id: word, slave: byte, t: Tables, b: Buffers, before: seq<word>, r: seq<byte>)
    requires b.Sized() && !TooMany(c) && c.ReadWords? && c.nb <= |before| && 1 <= |before|
    requires |r| == MAX_MESSAGE_LENGTH && r == Converse(c, id, slave, t, b).buffer[..|r|]
    ensures var ret := Converse(c, id, slave, t, b).ret; var u := Transact(c, id, slave, t, b);
      && u.0 == Answer(c, id, slave, t, b).tables && u.1.ret == ret
      && (ret <= 0 ==> Stored(before, before, u.1.data))
      && (ret > 0 ==> ret <= |before| && 9 + 2 * ret <= |r|
                      && Stored(Splice(before, 0, UnpackWords(r[9..], ret)), before, u.1.data))
  {
    assert c.nb <= MAX_REGISTERS;
    hide *;
    ReadWordsHeard(c, id, slave, t, b);
    TransactIs(c, id, slave, t, b);
    var ret := Converse(c, id, slave, t, b).ret;
    assert r == Converse(c, id, slave, t, b).buffer;
    OutcomeCases(c, ret, r);
    SmallReply(0);
    if ret <= 0 {
      NothingStored(before);
    } else {
      StoredWords(before, r[9..], ret);
    }
  }

  lemma SentWhole(b: seq<byte>, n: nat, q: seq<byte>)
    requires Drafted(b, n, q)
    ensures |b| >= 6 && n <= |b| && SetLength(b, n)[..n] == q && |q| == n && |SetLength(b, n)| == |b|
  {
  }
}

/**
 * The client calls, as operations on four plain arrays and as a conversation over the wire; the two agree.
 */
module ModbusCalls {
  import opened Bitwise
  import opened ModbusSpec

  // ---- A query ends where the next one begins ------------------------------------------------------

  /** A whole query, of any function code. */
  predicate Whole(mode: Mode, q: seq<byte>) {
    |q| == QueryLength(mode, q) <= MAX_MESSAGE_LENGTH
  }

  /** The receiver takes exactly the one query at the head of the stream. */
  lemma TakesOneQuery(mode: Mode, q: seq<byte>, rest: seq<byte>, end: End)
    requires Whole(mode, q)
    ensures ReceiveQuery(mode, q + rest, end) == Received(0, q, rest)
  {
    var s := q + rest;
    LengthFromHead(mode, q, rest);
    assert s[..|q|] == q && s[|q|..] == rest;
  }

  lemma LengthFromHead(mode: Mode, q: seq<byte>, rest: seq<byte>)
    requires Whole(mode, q)
    ensures QueryLength(mode, q + rest) == |q|
  {
    var h, s := mode.Header() + 2, q + rest;
    assert |q| >= h && s[h - 1] == q[h - 1];
  }

  function Concat(queries: seq<seq<byte>>): seq<byte> {
    if queries == [] then [] else queries[0] + Concat(queries[1..])
  }

  /** The messages taken one after the other from a stream, n of them or until one is not complete. */
  function ReceiveAll(mode: Mode, input: seq<byte>, end: End, n: nat): (seq<seq<byte>>, seq<byte>) {
    if n == 0 then ([], input)
    else
      var r := ReceiveQuery(mode, input, end);
      if r.code != 0 then ([], r.rest)
      else
        var more := ReceiveAll(mode, r.rest, end, n - 1);
        ([r.msg] + more.0, more.1)
  }

  lemma ReceiveNext(mode: Mode, q: seq<byte>, after: seq<byte>, end: End, n: nat)
    requires Whole(mode, q)
    ensures ReceiveAll(mode, q + after, end, n + 1)
            == ([q] + ReceiveAll(mode, after, end, n).0, ReceiveAll(mode, after, end, n).1)
  {
    TakesOneQuery(mode, q, after, end);
    hide ReceiveQuery, Whole;
  }

  lemma ConcatNext(queries: seq<seq<byte>>, rest: seq<byte>)
    ensures queries == [] ==> Concat(queries) + rest == rest
    ensures queries != [] ==> Concat(queries) + rest == queries[0] + (Concat(queries[1..]) + rest)
    ensures queries != [] ==> [queries[0]] + queries[1..] == queries
  {
  }

  lemma ReceiveNone(mode: Mode, input: seq<byte>, end: End)
    ensures ReceiveAll(mode, input, end, 0) == ([], input)
  {
  }

  /** However many queries follow one another on the line, they are taken apart at their borders. */
  lemma {:induction false} TakesAllQueries(mode: Mode, queries: seq<seq<byte>>, rest: seq<byte>, end: End)
    requires forall i | 0 <= i < |queries| :: Whole(mode, queries[i])
    ensures ReceiveAll(mode, Concat(queries) + rest, end, |queries|) == (queries, rest)
    decreases |queries|
  {
    hide *;
    ConcatNext(queries, rest);
    ReceiveNone(mode, rest, end);
    if queries != [] {
      var n := |queries| - 1;
      assert forall i | 0 <= i < n :: queries[1..][i] == queries[i + 1];
      TakesAllQueries(mode, queries[1..], rest, end);
      ReceiveNext(mode, queries[0], Concat(queries[1..]) + rest, end, n);
    }
  }

  // ---- Calls ---------------------------------------------------------------------------------------

  datatype Call =
    | ReadBits(input: bool, addr: word, nb: nat)
    | ReadWords(input: bool, addr: word, nb: nat)
    | WriteCoil(addr: word, state: int)
    | WriteRegister(addr: word, value: word)
    | WriteCoils(addr: word, flags: seq<byte>)
    | WriteRegisters(addr: word, words: seq<word>)

  /** What the call returns and what it stores through its destination pointer. */
  datatype Result = Result(ret: int, data: seq<int>)

  predicate TooMany(c: Call) {
    match c
    case ReadBits(_, _, nb) => nb > MAX_STATUS
    case ReadWords(_, _, nb) => nb > MAX_REGISTERS
    case WriteCoils(_, flags) => |flags| > MAX_STATUS
    case WriteRegisters(_, words) => |words| > MAX_REGISTERS
    case _ => false
  }

  /** The call as an operation on the slave's arrays. */
  function Plain(c: Call, t: Tables): (Tables, Result) {
    var illegal := (t, Result(ILLEGAL_DATA_ADDRESS, []));
    if TooMany(c) then (t, Result(TOO_MANY_DATA, []))
    else match c
      case ReadBits(input, addr, nb) =>
        var table := if input then t.inputs else t.coils;
        if addr + nb > |table| then illegal else (t, Result(nb, table[addr..addr + nb]))
      case ReadWords(input, addr, nb) =>
        var table := if input then t.inputRegisters else t.holding;
        if addr + nb > |table| then illegal else (t, Result(nb, table[addr..addr + nb]))
      case WriteCoil(addr, state) =>
        if addr >= |t.coils| then illegal
        else (t.(coils := t.coils[addr := if state != 0 then 1 else 0]), Result(1, []))
      case WriteRegister(addr, value) =>
        if addr >= |t.holding| then illegal
        else (t.(holding := t.holding[addr := value]), Result(1, []))
      case WriteCoils(addr, flags) =>
        if addr + |flags| > |t.coils| then illegal
        else (t.(coils := Splice(t.coils, addr, Flags(flags))), Result(|flags|, []))
      case WriteRegisters(addr, words) =>
        if addr + |words| > |t.holding| then illegal
        else (t.(holding := Splice(t.holding, addr, words)), Result(|words|, []))
  }

  // ---- The same calls over the wire ----------------------------------------------------------------

  function FunctionOf(c: Call): byte {
    match c
    case ReadBits(input, _, _) => if input then READ_INPUT_STATUS else READ_COIL_STATUS
    case ReadWords(input, _, _) => if input then READ_INPUT_REGISTERS else READ_HOLDING_REGISTERS
    case WriteCoil(_, _) => FORCE_SINGLE_COIL
    case WriteRegister(_, _) => PRESET_SINGLE_REGISTER
    case WriteCoils(_, _) => FORCE_MULTIPLE_COILS
    case WriteRegisters(_, _) => PRESET_MULTIPLE_REGISTERS
  }

  /** The fifth and sixth bytes after the header: a count, or the value of a single write. */
  function ValueOf(c: Call): word
    requires !TooMany(c)
  {
    match c
    case ReadBits(_, _, nb) => nb
    case ReadWords(_, _, nb) => nb
    case WriteCoil(_, state) => if state != 0 then 0xFF00 else 0
    case WriteRegister(_, value) => value
    case WriteCoils(_, flags) => |flags|
    case WriteRegisters(_, words) => |words|
  }

  function Payload(c: Call): (d: seq<byte>)
    requires !TooMany(c)
    ensures |d| <= 201
  {
    match c
    case WriteCoils(_, flags) => [Bytes(|flags|)] + PackBits(Flags(flags))
    case WriteRegisters(_, words) => [2 * |words|] + PackWords(words)
    case _ => []
  }

  function QueryOf(c: Call, id: word, slave: byte): seq<byte>
    requires !TooMany(c)
  {
    Query(id, slave, FunctionOf(c), c.addr, ValueOf(c), Payload(c))
  }

  /** A message in a buffer that held something else before. */
  function Padded(m: seq<byte>, stale: seq<byte>): (b: seq<byte>)
    requires |m| <= |stale|
    ensures |b| == |stale|
  {
    m + stale[|m|..]
  }

  /** What the receiving buffers of the slave and of the client held before. */
  datatype Buffers = Buffers(slave: seq<byte>, client: seq<byte>) {
    predicate Sized() {
      |slave| == MAX_MESSAGE_LENGTH && |client| == MAX_MESSAGE_LENGTH
    }
  }

  /** What the client makes of a reply, its buffer, and what it leaves on the line. */
  datatype Heard = Heard(ret: int, buffer: seq<byte>, left: seq<byte>)

  function Hear(q: seq<byte>, reply: seq<byte>, stale: seq<byte>): (h: Heard)
    requires |q| >= 12 && ResponseLength(q) <= |stale| == MAX_MESSAGE_LENGTH
    ensures |h.buffer| == MAX_MESSAGE_LENGTH
  {
    var answer := TakeExactly(ResponseLength(q), reply, Silent);
    var buffer := Padded(answer.msg, stale);
    Heard(Judge(q, answer.code, buffer, |answer.msg|), buffer, answer.rest)
  }

  /** The slave receives and serves the query of a call. */
  function Answer(c: Call, id: word, slave: byte, t: Tables, b: Buffers): Served
    requires b.Sized() && !TooMany(c)
  {
    QuerySuits(c, id, slave, t, b);
    var got := ReceiveQuery(TCP, QueryOf(c, id, slave), Silent).msg;
    Serve(Padded(got, b.slave), |got|, t)
  }

  function Converse(c: Call, id: word, slave: byte, t: Tables, b: Buffers): (h: Heard)
    requires b.Sized() && !TooMany(c)
    ensures |h.buffer| == MAX_MESSAGE_LENGTH
  {
    QuerySuits(c, id, slave, t, b);
    Hear(QueryOf(c, id, slave), Answer(c, id, slave, t, b).reply, b.client)
  }

  lemma MessageBytes(head: seq<byte>, body: seq<byte>, tail: seq<byte>)
    requires |head| == 4 && |body| < 65536
    ensures var m := Message(head, body) + tail;
      && |m| == 6 + |body| + |tail|
      && m[0] == head[0] && m[1] == head[1] && m[2] == head[2] && m[3] == head[3]
      && m[6..6 + |body|] == body && m[6 + |body|..] == tail
  {
  }

  lemma HalvesMakeWord(x: word)
    ensures Word(Hi(x), Lo(x)) == x
  {
  }

  lemma QueryFields(id: word, slave: byte, f: byte, addr: word, nb: word, data: seq<byte>, tail: seq<byte>)
    requires |data| < 256
    ensures var q := Query(id, slave, f, addr, nb, data); var m := q + tail;
      && |q| == 12 + |data|
      && m[6] == slave && m[7] == f && m[8] == Hi(addr) && m[9] == Lo(addr) && m[10] == Hi(nb) && m[11] == Lo(nb)
      && m[12..] == data + tail
  {
    var fixed := [slave, f, Hi(addr), Lo(addr), Hi(nb), Lo(nb)];
    MessageBytes([Hi(id), Lo(id), 0, 0], fixed + data, tail);
    var m := Query(id, slave, f, addr, nb, data) + tail;
    hide *;
    var body := m[6..12 + |data|];
    assert body == fixed + data;
    assert m[6] == body[0] && m[7] == body[1] && m[8] == body[2];
    assert m[9] == body[3] && m[10] == body[4] && m[11] == body[5];
    assert m[12..] == body[6..] + m[12 + |data|..];
    assert body[6..] == data;
  }

  /** The fields of a call's query, in a buffer. */
  lemma QueryBytes(c: Call, id: word, slave: byte, tail: seq<byte>)
    requires !TooMany(c)
    ensures var q := QueryOf(c, id, slave); var m := q + tail;
      && |q| == 12 + |Payload(c)|
      && m[6] == slave && m[7] == FunctionOf(c) && Address(m) == c.addr && Count(m) == ValueOf(c)
      && m[8..12] == [Hi(c.addr), Lo(c.addr), Hi(ValueOf(c)), Lo(ValueOf(c))]
      && m[12..] == Payload(c) + tail
  {
    QueryFields(id, slave, FunctionOf(c), c.addr, ValueOf(c), Payload(c), tail);
    HalvesMakeWord(c.addr);
    HalvesMakeWord(ValueOf(c));
    hide Query, Hi, Lo, Word, FunctionOf, ValueOf, Payload;
  }

  /** The length of the reply that would satisfy the call. */
  function Wanted(c: Call): nat
    requires !TooMany(c)
  {
    match c
    case ReadBits(_, _, nb) => 9 + Bytes(nb)
    case ReadWords(_, _, nb) => 9 + 2 * nb
    case _ => 12
  }

  lemma AsksFor(c: Call, q: seq<byte>)
    requires !TooMany(c) && |q| >= 12 && q[7] == FunctionOf(c) && Count(q) == ValueOf(c)
    ensures ResponseLength(q) == Wanted(c) <= MAX_MESSAGE_LENGTH
  {
    hide Count;
  }

  lemma QueryIsWhole(c: Call, id: word, slave: byte)
    requires !TooMany(c)
    ensures var q := QueryOf(c, id, slave);
      Whole(TCP, q) && ReceiveQuery(TCP, q, Silent) == Received(0, q, [])
  {
    var q := QueryOf(c, id, slave);
    QueryBytes(c, id, slave, []);
    TakesOneQuery(TCP, q, [], Silent) by {
      hide QueryOf, ReceiveQuery, Address, Count;
      assert q + [] == q;
      assert q[12..] == Payload(c);
      assert Payload(c) != [] ==> q[12] == Payload(c)[0];
    }
    hide *;
    assert q + [] == q;
  }

  /** The library's own query is one whole query, is safe to serve and asks for a reply that fits. */
  lemma QuerySuits(c: Call, id: word, slave: byte, t: Tables, b: Buffers)
    requires b.Sized() && !TooMany(c)
    ensures var q := QueryOf(c, id, slave);
      && |q| == 12 + |Payload(c)| <= MAX_MESSAGE_LENGTH
      && ReceiveQuery(TCP, q, Silent) == Received(0, q, [])
      && ResponseLength(q) == Wanted(c) <= MAX_MESSAGE_LENGTH && q[7] == FunctionOf(c) && Count(q) == ValueOf(c)
    ensures var q := QueryOf(c, id, slave); var p := Padded(q, b.slave);
      && Fits(p, |q|, t)
      && p[7] == FunctionOf(c) && Address(p) == c.addr && Count(p) == ValueOf(c)
  {
    var q := QueryOf(c, id, slave);
    QueryIsWhole(c, id, slave);
    QueryBytes(c, id, slave, []);
    QueryBytes(c, id, slave, b.slave[|q|..]);
    hide QueryOf, Payload, ReceiveQuery, ResponseLength, Address, Count;
    assert q + [] == q;
    AsksFor(c, q);
  }

  /** The part of the query that a multiple write confirms, and the data it carries. */
  lemma QueryData(c: Call, id: word, slave: byte, b: Buffers)
    requires b.Sized() && !TooMany(c)
    ensures var q := QueryOf(c, id, slave);
      |q| == 12 + |Payload(c)| <= MAX_MESSAGE_LENGTH
    ensures var q := QueryOf(c, id, slave); var p := Padded(q, b.slave);
      && p[8..12] == [Hi(c.addr), Lo(c.addr), Hi(ValueOf(c)), Lo(ValueOf(c))]
      && p[12..] == Payload(c) + b.slave[|q|..]
  {
    var q := QueryOf(c, id, slave);
    QueryBytes(c, id, slave, b.slave[|q|..]);
    hide QueryOf, Payload, Address, Count;
  }

  // ---- What the client hears -----------------------------------------------------------------------

  lemma ReplyBytes(q: seq<byte>, f: byte, data: seq<byte>, tail: seq<byte>)
    requires |q| >= 12 && |data| < 256
    ensures var r := Reply(q, f, data) + tail;
      && |Reply(q, f, data)| == 8 + |data| && r[7] == f
      && r[8..8 + |data|] == data && r[8 + |data|..] == tail
  {
    MessageBytes([q[0], q[1], 0, 0], [q[6], f] + data, tail);
    var r := Reply(q, f, data) + tail;
    hide Reply;
    assert r[6..8 + |data|] == [q[6], f] + data;
    assert r[6..8 + |data|][1] == f;
    assert r[8..8 + |data|] == r[6..8 + |data|][2..];
  }

  lemma ExceptionBytes(p: seq<byte>, code: int, tail: seq<byte>)
    requires |p| >= 12 && p[7] < 128 && -12 < code < 0
    ensures var r := Exception(p, code) + tail;
      |Exception(p, code)| == 9 && r[7] == p[7] + 0x80 && r[8] == -code
  {
    ReplyBytes(p, p[7] + 0x80, [-code], tail);
    assert (p[7] as int + 0x80) % 256 == p[7] + 0x80;
    hide Reply;
    var r := Exception(p, code) + tail;
    assert r[8] == r[8..9][0];
  }

  lemma HearAll(q: seq<byte>, reply: seq<byte>, stale: seq<byte>)
    requires |q| >= 12 && |reply| == ResponseLength(q) <= |stale| == MAX_MESSAGE_LENGTH
    ensures var h := Hear(q, reply, stale);
      && h.left == [] && h.buffer == reply + stale[|reply|..] && h.ret == Judge(q, 0, h.buffer, |reply|)
  {
    hide Judge, ResponseLength;
    assert reply[..|reply|] == reply;
  }

  lemma HearPart(q: seq<byte>, reply: seq<byte>, stale: seq<byte>)
    requires |q| >= 12 && |reply| < ResponseLength(q) <= |stale| == MAX_MESSAGE_LENGTH
    ensures var h := Hear(q, reply, stale);
      && h.left == [] && h.buffer == reply + stale[|reply|..] && h.ret == Judge(q, COMM_TIME_OUT, h.buffer, |reply|)
  {
    hide Judge, ResponseLength;
  }

  lemma JudgeRefusal(q: seq<byte>, r: seq<byte>)
    requires |q| >= 12 && |r| >= 12 && q[7] < 128 && r[7] == q[7] + 0x80
    ensures r[8] < NB_TAB_ERROR_MSG ==> Judge(q, COMM_TIME_OUT, r, 9) == -(r[8] as int)
    ensures q[7] <= 4 ==> Judge(q, 0, r, 9) == 1
    ensures NB_TAB_ERROR_MSG == 12
  {
  }

  /** A refusal is shorter than any reply with data: it is recognised once the line has fallen silent. */
  lemma HearRefusal(q: seq<byte>, p: seq<byte>, code: int, stale: seq<byte>)
    requires |q| >= 12 && |p| >= 12 && p[7] == q[7] < 128 && -12 < code < 0
    requires 9 < ResponseLength(q) <= |stale| == MAX_MESSAGE_LENGTH
    ensures Hear(q, Exception(p, code), stale).ret == code && Hear(q, Exception(p, code), stale).left == []
  {
    LongestMessage();
    hide *;
    ExceptionBytes(p, code, stale[9..]);
    HearPart(q, Exception(p, code), stale);
    JudgeRefusal(q, Exception(p, code) + stale[9..]);
  }

  /** Asked for nothing, the client takes a refusal for a finished reply. */
  lemma HearRefusalOfNothing(q: seq<byte>, p: seq<byte>, code: int, stale: seq<byte>)
    requires |q| >= 12 && |p| >= 12 && 1 <= q[7] <= 4 && p[7] == q[7] && -12 < code < 0
    requires ResponseLength(q) == 9 && |stale| == MAX_MESSAGE_LENGTH
    ensures Hear(q, Exception(p, code), stale).ret == 1 && Hear(q, Exception(p, code), stale).left == []
  {
    LongestMessage();
    hide *;
    ExceptionBytes(p, code, stale[9..]);
    HearAll(q, Exception(p, code), stale);
    JudgeRefusal(q, Exception(p, code) + stale[9..]);
  }

  lemma LongestMessage()
    ensures MAX_MESSAGE_LENGTH == 256
  {
  }

  /** A reply of the expected length is taken whole. */
  lemma HearReply(q: seq<byte>, p: seq<byte>, data: seq<byte>, stale: seq<byte>)
    requires |q| >= 12 && |p| >= 12 && p[7] == q[7] && |data| < 248
    requires ResponseLength(q) == 8 + |data| && |stale| == MAX_MESSAGE_LENGTH
    ensures var h := Hear(q, Reply(p, p[7], data), stale);
      && h.left == [] && h.buffer[7] == q[7] && h.buffer[8..] == data + stale[8 + |data|..]
      && h.ret == Judge(q, 0, h.buffer, 8 + |data|)
  {
    var r := Reply(p, p[7], data);
    ReplyBytes(p, p[7], data, stale[8 + |data|..]);
    hide Reply, Judge;
    assert r[..8 + |data|] == r;
    var b := r + stale[8 + |data|..];
    assert b[8..] == b[8..8 + |data|] + b[8 + |data|..];
  }

  lemma HearEcho(q: seq<byte>, p: seq<byte>, stale: seq<byte>)
    requires |q| == 12 && |p| == MAX_MESSAGE_LENGTH && p[7] == q[7] && (q[7] == 5 || q[7] == 6)
    requires |stale| == MAX_MESSAGE_LENGTH
    ensures var h := Hear(q, Echo(p, 12), stale); h.ret == 1 && h.left == []
  {
    MessageBytes(p[..4], p[6..12], stale[12..]);
    var r := Echo(p, 12);
    hide Message;
    assert r[..12] == r;
    var b := r + stale[12..];
    assert b[7] == b[6..12][1] == p[6..12][1];
  }
}

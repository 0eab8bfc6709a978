/**
 * Modbus over TCP and, for reception, over a serial line: the bytes of queries and replies, what the receiver
 * takes from a stream, what the slave does with a query, and how the client judges the reply.
 */
module ModbusSpec {
  import opened Bitwise

  type word = x: int | 0 <= x < 65536

  const READ_COIL_STATUS: byte := 1
  const READ_INPUT_STATUS: byte := 2
  const READ_HOLDING_REGISTERS: byte := 3
  const READ_INPUT_REGISTERS: byte := 4
  const FORCE_SINGLE_COIL: byte := 5
  const PRESET_SINGLE_REGISTER: byte := 6
  const READ_EXCEPTION_STATUS: byte := 7
  const FORCE_MULTIPLE_COILS: byte := 15
  const PRESET_MULTIPLE_REGISTERS: byte := 16
  const REPORT_SLAVE_ID: byte := 17

  const ILLEGAL_DATA_ADDRESS := -2
  const ILLEGAL_DATA_VALUE := -3
  const COMM_TIME_OUT := -12
  const PORT_SOCKET_FAILURE := -13
  const TOO_MANY_DATA := -15
  const INVALID_EXCEPTION_CODE := -17
  const CONNECTION_CLOSED := -18

  const MSG_LENGTH_UNDEFINED := -1
  const NB_TAB_ERROR_MSG := 12
  const MAX_MESSAGE_LENGTH := 256
  const MAX_STATUS := 800
  const MAX_REGISTERS := 100

  datatype Mode = TCP | RTU {
    function Header(): nat { if TCP? then 6 else 0 }
    function Checksum(): nat { if TCP? then 0 else 2 }
  }

  // ---- Receiving -----------------------------------------------------------------------------------

  /** What the line does after the last byte: nothing, closing, or failing. */
  datatype End = Silent | Closed | Broken {
    function Code(): int {
      match this
      case Silent => COMM_TIME_OUT
      case Closed => CONNECTION_CLOSED
      case Broken => PORT_SOCKET_FAILURE
    }
  }

  datatype Received = Received(code: int, msg: seq<byte>, rest: seq<byte>)

  predicate Multiple(f: byte) {
    f == FORCE_MULTIPLE_COILS || f == PRESET_MULTIPLE_REGISTERS
  }

  /** Bytes between the function code and the data of a query. */
  function QueryHeader(f: byte): byte {
    if f <= FORCE_SINGLE_COIL || f == PRESET_SINGLE_REGISTER then 4 else if Multiple(f) then 5 else 0
  }

  function TakeExactly(n: nat, input: seq<byte>, end: End): Received {
    if |input| >= n then Received(0, input[..n], input[n..]) else Received(end.Code(), input, [])
  }

  /** The length of the query that starts with m, as far as m says. */
  function QueryLength(mode: Mode, m: seq<byte>): nat {
    var h := mode.Header() + 2;
    if |m| < h || QueryHeader(m[h - 1]) == 0 then h
    else
      var n := h + QueryHeader(m[h - 1]);
      if |m| < n then n
      else n + (if Multiple(m[h - 1]) then m[h + 4] else 0) + mode.Checksum()
  }

  /** A query, received byte by byte from an arbitrary stream. */
  function ReceiveQuery(mode: Mode, input: seq<byte>, end: End): Received {
    var n := QueryLength(mode, input);
    if n > MAX_MESSAGE_LENGTH then
      var head := mode.Header() + 7;
      Received(TOO_MANY_DATA, input[..head], input[head..])
    else TakeExactly(n, input, end)
  }

  // ---- Messages ------------------------------------------------------------------------------------

  function Hi(x: word): byte { x / 256 }
  function Lo(x: word): byte { x % 256 }
  function Word(hi: byte, lo: byte): word { hi * 256 + lo }

  /** Four leading bytes, the length of the rest, the rest. */
  function Message(head: seq<byte>, body: seq<byte>): seq<byte>
    requires |head| == 4 && |body| < 65536
  {
    head + [Hi(|body|), Lo(|body|)] + body
  }

  function Query(id: word, slave: byte, f: byte, addr: word, nb: word, data: seq<byte>): seq<byte>
    requires |data| < 256
  {
    Message([Hi(id), Lo(id), 0, 0], [slave, f, Hi(addr), Lo(addr), Hi(nb), Lo(nb)] + data)
  }

  // ---- Bits and words ------------------------------------------------------------------------------

  /** The cells of the k-th byte. */
  function Group(cells: seq<byte>, k: nat): seq<byte>
    requires 8 * k <= |cells|
  {
    cells[8 * k..if |cells| < 8 * k + 8 then |cells| else 8 * k + 8]
  }

  /** Cell i is or-ed in, shifted up by i. */
  function Gather(cells: seq<byte>): nat {
    if cells == [] then 0
    else
      var n := |cells| - 1;
      Or(Gather(cells[..n]), Shl(cells[n], n))
  }

  function Bytes(bits: nat): nat {
    bits / 8 + (if bits % 8 != 0 then 1 else 0)
  }

  function PackBits(cells: seq<byte>): seq<byte> {
    seq(Bytes(|cells|), k requires 0 <= k < Bytes(|cells|) => Gather(Group(cells, k)) % 256)
  }

  function UnpackBits(bytes: seq<byte>, n: nat): seq<byte>
    requires n <= 8 * |bytes|
  {
    seq(n, i requires 0 <= i < n => if Bit(bytes[i / 8], i % 8) then 1 else 0)
  }

  function PackWords(words: seq<word>): seq<byte> {
    seq(2 * |words|, i requires 0 <= i < 2 * |words| => if i % 2 == 0 then Hi(words[i / 2]) else Lo(words[i / 2]))
  }

  function UnpackWords(bytes: seq<byte>, n: nat): seq<word>
    requires 2 * n <= |bytes|
  {
    seq(n, i requires 0 <= i < n => Word(bytes[2 * i], bytes[2 * i + 1]))
  }

  /** Zero or not zero. */
  function Flags(data: seq<byte>): seq<byte> {
    seq(|data|, i requires 0 <= i < |data| => if data[i] != 0 then 1 else 0)
  }

  function Splice<T>(s: seq<T>, at: nat, part: seq<T>): seq<T>
    requires at + |part| <= |s|
  {
    s[..at] + part + s[at + |part|..]
  }

  // ---- The slave -----------------------------------------------------------------------------------

  datatype Tables = Tables(coils: seq<byte>, inputs: seq<byte>, holding: seq<word>, inputRegisters: seq<word>)

  function Address(q: seq<byte>): word
    requires |q| >= 12
  {
    Word(q[8], q[9])
  }

  function Count(q: seq<byte>): word
    requires |q| >= 12
  {
    Word(q[10], q[11])
  }

  /** The cells a query addresses lie in a table of the given size. */
  predicate Within(q: seq<byte>, size: nat)
    requires |q| >= 12
  {
    Address(q) + Count(q) <= size
  }

  datatype Served = Served(tables: Tables, reply: seq<byte>)

  function Reply(q: seq<byte>, f: byte, data: seq<byte>): seq<byte>
    requires |q| >= 12 && |data| < 256
  {
    Message([q[0], q[1], 0, 0], [q[6], f] + data)
  }

  function Exception(q: seq<byte>, code: int): seq<byte>
    requires |q| >= 12 && -12 <= code < 0
  {
    Reply(q, (q[7] as int + 0x80) % 256, [-code])
  }

  /** The bytes of the query that are read and the reply that is written stay inside the two buffers. */
  predicate Fits(q: seq<byte>, n: nat, t: Tables) {
    && |q| == MAX_MESSAGE_LENGTH && n <= |q|
    && (q[7] == READ_COIL_STATUS && Within(q, |t.coils|) ==> 9 + Bytes(Count(q)) <= MAX_MESSAGE_LENGTH)
    && (q[7] == READ_INPUT_STATUS && Within(q, |t.inputs|) ==> 9 + Bytes(Count(q)) <= MAX_MESSAGE_LENGTH)
    && (q[7] == READ_HOLDING_REGISTERS && Within(q, |t.holding|) ==> 9 + 2 * Count(q) <= MAX_MESSAGE_LENGTH)
    && (q[7] == READ_INPUT_REGISTERS && Within(q, |t.inputRegisters|) ==> 9 + 2 * Count(q) <= MAX_MESSAGE_LENGTH)
    && (q[7] == FORCE_SINGLE_COIL || q[7] == PRESET_SINGLE_REGISTER ==> n >= 12)
    && (q[7] == FORCE_MULTIPLE_COILS && Within(q, |t.coils|) ==> 13 + Bytes(Count(q)) <= MAX_MESSAGE_LENGTH)
    && (q[7] == PRESET_MULTIPLE_REGISTERS && Within(q, |t.holding|) ==> 13 + 2 * Count(q) <= MAX_MESSAGE_LENGTH)
  }

  function BitsReply(q: seq<byte>, table: seq<byte>): seq<byte>
    requires |q| >= 12 && (Within(q, |table|) ==> 9 + Bytes(Count(q)) <= MAX_MESSAGE_LENGTH)
  {
    if !Within(q, |table|) then Exception(q, ILLEGAL_DATA_ADDRESS)
    else Reply(q, q[7], [Bytes(Count(q))] + PackBits(table[Address(q)..Address(q) + Count(q)]))
  }

  function WordsReply(q: seq<byte>, table: seq<word>): seq<byte>
    requires |q| >= 12 && (Within(q, |table|) ==> 9 + 2 * Count(q) <= MAX_MESSAGE_LENGTH)
  {
    if !Within(q, |table|) then Exception(q, ILLEGAL_DATA_ADDRESS)
    else Reply(q, q[7], [2 * Count(q)] + PackWords(table[Address(q)..Address(q) + Count(q)]))
  }

  /** The query itself, with its length field set again. */
  function Echo(q: seq<byte>, n: nat): seq<byte>
    requires 12 <= n <= |q| <= MAX_MESSAGE_LENGTH
  {
    Message(q[..4], q[6..n])
  }

  function Serve(q: seq<byte>, n: nat, t: Tables): Served
    requires Fits(q, n, t)
  {
    var f, addr, nb := q[7], Address(q), Count(q);
    if f == READ_COIL_STATUS then Served(t, BitsReply(q, t.coils))
    else if f == READ_INPUT_STATUS then Served(t, BitsReply(q, t.inputs))
    else if f == READ_HOLDING_REGISTERS then Served(t, WordsReply(q, t.holding))
    else if f == READ_INPUT_REGISTERS then Served(t, WordsReply(q, t.inputRegisters))
    else if f == FORCE_SINGLE_COIL then
      if addr >= |t.coils| then Served(t, Exception(q, ILLEGAL_DATA_ADDRESS))
      else if nb == 0xFF00 || nb == 0 then
        Served(t.(coils := t.coils[addr := if nb != 0 then 1 else 0]), Echo(q, n))
      else Served(t, Exception(q, ILLEGAL_DATA_VALUE))
    else if f == PRESET_SINGLE_REGISTER then
      if addr >= |t.holding| then Served(t, Exception(q, ILLEGAL_DATA_ADDRESS))
      else Served(t.(holding := t.holding[addr := nb]), Echo(q, n))
    else if f == FORCE_MULTIPLE_COILS then
      if !Within(q, |t.coils|) then Served(t, Exception(q, ILLEGAL_DATA_ADDRESS))
      else Served(t.(coils := Splice(t.coils, addr, UnpackBits(q[13..], nb))), Reply(q, f, q[8..12]))
    else if f == PRESET_MULTIPLE_REGISTERS then
      if !Within(q, |t.holding|) then Served(t, Exception(q, ILLEGAL_DATA_ADDRESS))
      else Served(t.(holding := Splice(t.holding, addr, UnpackWords(q[13..], nb))), Reply(q, f, q[8..12]))
    else Served(t, [])
  }

  // ---- The client ----------------------------------------------------------------------------------

  /** The length of the reply a query should get. */
  function ResponseLength(q: seq<byte>): nat
    requires |q| >= 12
  {
    var f := q[7];
    6 + (if f == READ_COIL_STATUS || f == READ_INPUT_STATUS then 3 + Bytes(Count(q))
         else if f == READ_HOLDING_REGISTERS || f == READ_INPUT_REGISTERS then 3 + 2 * Count(q)
         else if f == READ_EXCEPTION_STATUS then 4
         else 6)
  }

  /** What a call returns: code is the receiver's result, r the reply buffer, of which n bytes arrived. */
  function Judge(q: seq<byte>, code: int, r: seq<byte>, n: int): int
    requires |q| >= 12 && |r| >= 12
  {
    if code == 0 then
      var f := r[7];
      var bits := f == READ_COIL_STATUS || f == READ_INPUT_STATUS;
      var words := f == READ_HOLDING_REGISTERS || f == READ_INPUT_REGISTERS;
      var wanted := if bits then Bytes(Count(q)) else if words || Multiple(f) then Count(q)
                    else if f == REPORT_SLAVE_ID then n else 1;
      var got := if bits then r[8] else if words then r[8] / 2 else if Multiple(f) then Word(r[10], r[11])
                 else if f == REPORT_SLAVE_ID then n else 1;
      if wanted == got then got else ILLEGAL_DATA_VALUE
    else if code == COMM_TIME_OUT && n == 9 && q[7] as int + 0x80 == r[7] then
      if r[8] < NB_TAB_ERROR_MSG then -r[8] else INVALID_EXCEPTION_CODE
    else code
  }
}

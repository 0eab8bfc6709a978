/**
 * XBee API frames: what the encoder puts on the line and what one call of the resumable parser does
 * with the bytes that have arrived.
 */
module XBeeSpec {
  import opened Bitwise

  const START_BYTE: byte := 0x7E
  const ESCAPE: byte := 0x7D
  const XON: byte := 0x11
  const XOFF: byte := 0x13

  const MAX_FRAME_DATA_SIZE := 255
  const API_ID_INDEX := 3

  const CHECKSUM_FAILURE: byte := 1
  const PACKET_EXCEEDS_BYTE_ARRAY_LENGTH: byte := 2
  const UNEXPECTED_START_BYTE: byte := 3
  const AT_NO_RESPONSE: byte := 4

  function Flip(b: byte): byte {
    FlipFits(b);
    Xor(b, 0x20)
  }

  lemma FlipFits(b: byte)
    ensures Xor(b, 0x20) < 256
  {
    assert Pow2(8) == 256;
    XorBelow(b, 0x20, 8);
  }

  lemma FlipTwice(b: byte)
    ensures Flip(Flip(b)) == b
  {
    XorTwice(b, 0x20);
  }

  predicate Special(b: byte) {
    b == START_BYTE || b == ESCAPE || b == XON || b == XOFF
  }

  // ---- Sending -------------------------------------------------------------------------------------

  function SendByte(b: byte, escape: bool): seq<byte> {
    if escape && Special(b) then [ESCAPE, Flip(b)] else [b]
  }

  function SendAll(d: seq<byte>, escape: bool): seq<byte> {
    if d == [] then [] else SendByte(d[0], escape) + SendAll(d[1..], escape)
  }

  /** The line bytes of a frame: the start byte is never escaped. */
  function Encode(d: seq<byte>, escape: bool): seq<byte>
    requires |d| > 0
  {
    [d[0]] + SendAll(d[1..], escape)
  }

  function Sum(d: seq<byte>): nat {
    if d == [] then 0 else Sum(d[..|d| - 1]) + d[|d| - 1]
  }

  datatype Request = Request(apiId: byte, frameId: byte, data: seq<byte>)

  /** The frame of a request before escaping. */
  function FrameOf(r: Request): seq<byte>
    requires |r.data| < 256
  {
    var n := |r.data| + 2;
    var body := [r.apiId, r.frameId] + r.data;
    [START_BYTE, n / 256, n % 256] + body + [(0xFF - Sum(body)) % 256]
  }

  // ---- Receiving -----------------------------------------------------------------------------------

  datatype State = State(pos: nat, escape: bool, total: byte, msb: byte, lsb: byte, api: byte,
                         data: seq<byte>, checksum: byte, frameLength: int, available: bool, error: byte)

  function Zeros(): seq<byte> {
    seq(MAX_FRAME_DATA_SIZE, i => 0)
  }

  function Reset(s: State): State {
    State(0, false, s.total, 0, 0, 0, Zeros(), 0, 0, false, 0)
  }

  predicate Reported(s: State) {
    s.available || s.error > 0
  }

  /** The length the parser goes by: the high byte is masked away. */
  function PacketLength(s: State): nat {
    s.lsb
  }

  predicate Wide(s: State) {
    |s.data| == MAX_FRAME_DATA_SIZE
  }

  /** One byte after unescaping. */
  function Accept(s: State, b: byte): (t: State)
    requires Wide(s)
    ensures Wide(t)
  {
    var u := if s.pos >= API_ID_INDEX then s.(total := (s.total + b) % 256) else s;
    if s.pos == 0 then (if b == START_BYTE then u.(pos := 1) else u)
    else if s.pos == 1 then u.(msb := b, pos := 2)
    else if s.pos == 2 then u.(lsb := b, pos := 3)
    else if s.pos == 3 then u.(api := b, pos := 4)
    else if s.pos > MAX_FRAME_DATA_SIZE then u.(error := PACKET_EXCEEDS_BYTE_ARRAY_LENGTH)
    else if s.pos == PacketLength(s) + 3 then
      var v := if u.total == 0xFF then u.(checksum := b, available := true, error := 0)
               else u.(error := CHECKSUM_FAILURE);
      v.(frameLength := s.pos - 4, pos := 0, total := 0)
    else u.(data := u.data[s.pos - 4 := b], pos := s.pos + 1)
  }

  /** How the serial port answers available(): whether bytes are waiting, or whether it is open. */
  datatype Port = Polled | Connected

  datatype Read = Read(state: State, rest: seq<byte>)

  /** The reading loop over the bytes that have arrived. */
  function Loop(s: State, input: seq<byte>, escaping: bool, port: Port): (r: Read)
    requires Wide(s)
    ensures Wide(r.state)
    decreases |input|
  {
    if input == [] then Read(s, [])
    else
      var b, rest := input[0], input[1..];
      if escaping && s.pos > 0 && b == START_BYTE then Read(s.(error := UNEXPECTED_START_BYTE), rest)
      else if escaping && s.pos > 0 && b == ESCAPE && rest == [] then
        if port.Connected? then Read(s.(error := AT_NO_RESPONSE), rest)
        else Read(s.(escape := true), rest)
      else
        var pair := escaping && s.pos > 0 && b == ESCAPE;
        var c := if pair then Flip(rest[0]) else b;
        var left := if pair then rest[1..] else rest;
        var flip := escaping && s.escape;
        var t := Accept(if flip then s.(escape := false) else s, if flip then Flip(c) else c);
        if Reported(t) then Read(t, left) else Loop(t, left, escaping, port)
  }

  /** One call: a finished packet or an error is discarded first. */
  function ReadPacket(s: State, input: seq<byte>, escaping: bool, port: Port): (r: Read)
    requires Wide(s)
    ensures Wide(r.state)
  {
    Loop(if Reported(s) then Reset(s) else s, input, escaping, port)
  }
}

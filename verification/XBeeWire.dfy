/**
 * The bytes of an API frame on the line, and what the parser makes of single bytes, as numbers.
 */
module XBeeWire {
  import opened Bitwise
  import opened XBeeSpec
  import opened XBeeProof
  import opened XBeeTheorems

  // ---- Sending -------------------------------------------------------------------------------------

  /** The four bytes that are escaped, and what stands for them; every other byte stands for itself. */
  lemma PairOf(b: byte)
    ensures SendByte(b, false) == [b]
    ensures SendByte(b, true)
            == if b == 0x7E then [0x7D, 0x5E] else if b == 0x7D then [0x7D, 0x5D]
               else if b == 0x11 then [0x7D, 0x31] else if b == 0x13 then [0x7D, 0x33] else [b]
  {
    FlipIs(b);
    hide Flip;
  }

  /** Behind the start byte an escaped frame holds none of these bytes, except as the first of a pair. */
  lemma {:induction false} CleanBehindStart(d: seq<byte>)
    requires d != []
    ensures Encode(d, true)[0] == d[0]
    ensures forall i | 0 < i < |Encode(d, true)| :: Encode(d, true)[i] !in [0x7E, 0x11, 0x13]
  {
    NoControlBytes(d[1..]);
    var more := SendAll(d[1..], true);
    hide SendAll;
    assert forall i | 0 < i <= |more| :: Encode(d, true)[i] == more[i - 1];
  }

  /** The bytes of a frame in front of its escaping. */
  lemma FrameBytes(r: Request)
    requires |r.data| < 256
    ensures var d, n := FrameOf(r), |r.data|;
      && |d| == n + 6 && d[0] == 0x7E && (d[1] as int) * 256 + d[2] == n + 2 && d[3] == r.apiId && d[4] == r.frameId
      && d[5..n + 5] == r.data && (r.apiId + r.frameId + Sum(r.data) + d[n + 5]) % 256 == 255
  {
    FrameParts(r);
    SumOfBody(r);
    Complement(Sum([r.apiId, r.frameId] + r.data));
    var d, n := FrameOf(r), |r.data|;
    hide FrameOf, Sum;
    var body := [r.apiId, r.frameId] + r.data;
    assert d[3..][1] == body[1] && d[3..][n + 2] == (0xFF - Sum(body)) % 256;
    assert d[5..n + 5] == d[3..][2..n + 2] == body[2..] == r.data;
  }

  lemma SumOfBody(r: Request)
    ensures Sum([r.apiId, r.frameId] + r.data) == r.apiId + r.frameId + Sum(r.data)
  {
    hide Sum;
    assert [r.apiId, r.frameId] + r.data == [r.apiId] + ([r.frameId] + r.data);
    SumSplit([r.apiId], [r.frameId] + r.data);
    SumSplit([r.frameId], r.data);
    SumOne(r.apiId);
    SumOne(r.frameId);
  }

  /** The sum in the checksum: of no bytes, of one, and of two parts. */
  lemma SumLaws(b: byte, x: seq<byte>, y: seq<byte>)
    ensures Sum([]) == 0 && Sum([b]) == b && Sum(x + y) == Sum(x) + Sum(y)
  {
    SumOne(b);
    SumSplit(x, y);
  }

  /** A frame without data whose frame id has to be escaped. */
  lemma ShortFrame()
    ensures Encode(FrameOf(Request(0x23, 0x11, [])), true) == [0x7E, 0x00, 0x02, 0x23, 0x7D, 0x31, 0xCB]
    ensures Encode(FrameOf(Request(0x23, 0x11, [])), false) == [0x7E, 0x00, 0x02, 0x23, 0x11, 0xCB]
  {
    hide *;
    ShortBytes();
    ShortPairs(true);
    ShortPairs(false);
  }

  lemma ShortBytes()
    ensures FrameOf(Request(0x23, 0x11, [])) == [0x7E, 0x00, 0x02, 0x23, 0x11, 0xCB]
  {
    var r := Request(0x23, 0x11, []);
    FrameBytes(r);
    assert Sum([]) == 0;
    hide FrameOf;
    var d := FrameOf(r);
    assert d == [d[0], d[1], d[2], d[3], d[4], d[5]];
  }

  lemma ShortPairs(escape: bool)
    ensures Encode([0x7E, 0x00, 0x02, 0x23, 0x11, 0xCB], escape)
            == [0x7E, 0x00, 0x02, 0x23] + (if escape then [0x7D, 0x31] else [0x11]) + [0xCB]
  {
    hide *;
    PairOf(0x00);
    PairOf(0x02);
    PairOf(0x23);
    PairOf(0x11);
    PairOf(0xCB);
    FivePairs(0x7E, 0x00, 0x02, 0x23, 0x11, 0xCB, escape);
  }

  lemma FivePairs(a: byte, b: byte, c: byte, d: byte, e: byte, f: byte, escape: bool)
    ensures Encode([a, b, c, d, e, f], escape)
            == [a] + (SendByte(b, escape) + (SendByte(c, escape) + (SendByte(d, escape)
               + (SendByte(e, escape) + SendByte(f, escape)))))
  {
    hide SendByte;
    var all := [a, b, c, d, e, f];
    SendAllNext(all, 1, escape);
    SendAllNext(all, 2, escape);
    SendAllNext(all, 3, escape);
    SendAllNext(all, 4, escape);
    SendAllNext(all, 5, escape);
    assert all[6..] == [] && SendAll([], escape) == [];
    assert SendByte(f, escape) + [] == SendByte(f, escape);
  }

  // ---- Receiving -----------------------------------------------------------------------------------

  /** What the response holds once the frame of a request was read: every field, and no error. */
  lemma ResponseRead(s: State, r: Request, escaping: bool)
    requires Fresh(s) && |r.data| <= 250
    ensures var t := ReadPacket(s, Encode(FrameOf(r), escaping), escaping, Polled).state; var n := |r.data|;
      && t.available && t.error == 0 && t.msb == 0 && t.lsb == n + 2 && t.api == r.apiId
      && t.frameLength == n + 1 && Wide(t) && t.data[..n + 1] == [r.frameId] + r.data
      && (r.apiId + r.frameId + Sum(r.data) + t.checksum) % 256 == 255
  {
    var d, n := FrameOf(r), |r.data|;
    FrameShape(r);
    FrameBytes(r);
    FrameParts(r);
    LengthBytes(n);
    hide *;
    DoneWith(s, d, escaping);
    DoneFields(ReadPacket(s, Encode(d, escaping), escaping, Polled).state, d);
  }

  lemma LengthBytes(n: nat)
    requires n <= 250
    ensures (n + 2) / 256 == 0 && (n + 2) % 256 == n + 2
  {
  }

  lemma DoneWith(s: State, d: seq<byte>, escaping: bool)
    requires Fresh(s) && Shape(d)
    ensures Done(ReadPacket(s, Encode(d, escaping), escaping, Polled).state, d, 0)
  {
    hide Loop, Accept, At, Done, SendAll;
    var u := if Reported(s) then Reset(s) else s;
    assert Idle(u, 0);
    Started(u, d, SendAll(d[1..], escaping), escaping);
    assert SendAll(d[1..], escaping) + [] == SendAll(d[1..], escaping);
    WholeFrom(u.(pos := 1), d, 1, false, 0, [], escaping, Polled);
  }

  lemma DoneFields(t: State, d: seq<byte>)
    requires Shape(d) && Done(t, d, 0) && Good(d, 0)
    ensures |d| >= 5 && Wide(t) && |t.data| == 255
    ensures t.available && t.error == 0 && t.msb == d[1] && t.lsb == d[2] && t.api == d[3]
    ensures t.frameLength == |d| - 5 && t.data[..|d| - 5] == d[4..|d| - 1] && t.checksum == d[|d| - 1]
  {
  }

  /** The numbers a caller sees for a bad checksum, a frame that is too long, a start byte inside and a time-out. */
  lemma ErrorNumbers()
    ensures CHECKSUM_FAILURE == 1 && PACKET_EXCEEDS_BYTE_ARRAY_LENGTH == 2
    ensures UNEXPECTED_START_BYTE == 3 && AT_NO_RESPONSE == 4
  {
  }

  /** Inside a frame a start byte is an error, with the bytes behind it still to be read. */
  lemma StartInside(s: State, rest: seq<byte>, port: Port)
    requires Wide(s) && !Reported(s) && s.pos > 0
    ensures ReadPacket(s, [0x7E] + rest, true, port) == Read(s.(error := 3), rest)
  {
    hide Accept;
    assert ([0x7E] + rest)[1..] == rest;
  }

  /** An escape byte with nothing behind it is kept for the next call, or is a time-out if the port is always open. */
  lemma EscapeAlone(s: State)
    requires Wide(s) && !Reported(s) && s.pos > 0
    ensures ReadPacket(s, [0x7D], true, Connected) == Read(s.(error := 4), [])
    ensures ReadPacket(s, [0x7D], true, Polled) == Read(s.(escape := true), [])
  {
    hide Accept;
    assert [0x7D][1..] == [];
  }

  /** The byte behind 255 stored ones is an error. */
  lemma NoRoom(s: State, b: byte, rest: seq<byte>, port: Port)
    requires Wide(s) && !Reported(s) && s.pos > 255
    ensures var r := ReadPacket(s, [b] + rest, false, port);
      r.rest == rest && r.state == s.(error := 2, total := (s.total + b) % 256)
  {
    hide Loop;
    assert ([b] + rest)[1..] == rest;
    LoopOnce(s, b, rest, port);
  }

  lemma LoopOnce(s: State, b: byte, rest: seq<byte>, port: Port)
    requires Wide(s)
    ensures var t := Accept(s, b);
      Loop(s, [b] + rest, false, port) == if Reported(t) then Read(t, rest) else Loop(t, rest, false, port)
  {
    hide Accept;
    assert ([b] + rest)[1..] == rest;
  }

  /** Before a frame every byte but the start byte is passed over. */
  lemma BeforeFrame(s: State, b: byte, rest: seq<byte>, escaping: bool, port: Port)
    requires Wide(s) && !Reported(s) && s.pos == 0 && !s.escape
    ensures ReadPacket(s, [b] + rest, escaping, port)
            == ReadPacket(if b == 0x7E then s.(pos := 1) else s, rest, escaping, port)
  {
    hide Flip;
    assert ([b] + rest)[1..] == rest;
  }

  /** After a report the next call starts with every field of the response cleared, except the checksum total. */
  lemma StartsAfresh(s: State, escaping: bool, port: Port)
    requires Wide(s) && Reported(s)
    ensures var t := ReadPacket(s, [], escaping, port).state;
      && t.pos == 0 && !t.escape && t.msb == 0 && t.lsb == 0 && t.api == 0 && t.checksum == 0
      && t.frameLength == 0 && !t.available && t.error == 0 && t.total == s.total
      && |t.data| == 255 && forall i | 0 <= i < 255 :: t.data[i] == 0
  {
  }

  /** The last byte of a frame ends it, with a packet if the bytes add up and with error 1 if they do not. */
  lemma LastByte(s: State, b: byte, rest: seq<byte>, port: Port)
    requires Wide(s) && !Reported(s) && 4 <= s.pos <= 255 && s.pos == s.lsb + 3
    ensures var r := ReadPacket(s, [b] + rest, false, port); var t := r.state;
      && r.rest == rest && t.pos == 0 && t.total == 0 && t.frameLength == s.lsb - 1
      && t.msb == s.msb && t.lsb == s.lsb && t.api == s.api && t.data == s.data
      && (if (s.total + b) % 256 == 255 then t.available && t.error == 0 && t.checksum == b
          else !t.available && t.error == 1 && t.checksum == s.checksum)
  {
    hide Loop;
    LoopOnce(s, b, rest, port);
  }
}

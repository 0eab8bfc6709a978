/**
 * The XBee class: it writes requests to a serial port and reads packets from it, in place.
 */
module XBee {
  import opened Bitwise
  import opened XBeeSpec

  /** The serial port: bytes that have arrived, bytes that were written. */
  class Serial {
    const port: Port
    var incoming: seq<byte>
    var sent: seq<byte>

    constructor (port: Port)
      ensures incoming == [] && sent == [] && this.port == port
    {
      this.port := port;
      incoming, sent := [], [];
    }

    method Available() returns (r: bool)
      ensures r == (port.Connected? || incoming != [])
    {
      r := match port case Connected => true case Polled => incoming != [];
    }

    method Read() returns (n: int, b: byte)
      modifies this`incoming
      ensures old(incoming) == [] ==> n == 0 && incoming == []
      ensures old(incoming) != [] ==> n == 1 && b == old(incoming)[0] && incoming == old(incoming)[1..]
    {
      if incoming == [] {
        return 0, 0;
      }
      n, b := 1, incoming[0];
      incoming := incoming[1..];
    }

    method Print(b: byte)
      modifies this`sent
      ensures sent == old(sent) + [b]
    {
      sent := sent + [b];
    }
  }

  class XBee {
    const mSerial: Serial
    var pos: nat
    var escape: bool
    var canEscape: bool
    var checksumTotal: byte
    var msbLength: byte
    var lsbLength: byte
    var apiId: byte
    var checksum: byte
    var frameLength: int
    var complete: bool
    var errorCode: byte
    const frameData: array<byte>

    ghost predicate Valid() {
      frameData.Length == MAX_FRAME_DATA_SIZE
    }

    ghost function Abs(): (s: State)
      requires Valid()
      reads this, frameData
      ensures Wide(s)
    {
      State(pos, escape, checksumTotal, msbLength, lsbLength, apiId, frameData[..], checksum, frameLength,
            complete, errorCode)
    }

    constructor (serial: Serial)
      ensures Valid() && fresh(frameData) && mSerial == serial && canEscape
      ensures Abs().pos == 0 && !Abs().escape && Abs().total == 0 && !Reported(Abs())
    {
      mSerial := serial;
      pos, escape, canEscape, checksumTotal := 0, false, true, 0;
      msbLength, lsbLength, apiId, checksum, frameLength := 0, 0, 0, 0, 0;
      complete, errorCode := false, 0;
      frameData := new byte[MAX_FRAME_DATA_SIZE](i => 0);
    }

    // ---- Sending -----------------------------------------------------------------------------------

    method SendByte(b: byte, escaping: bool)
      modifies mSerial`sent
      ensures mSerial.sent == old(mSerial.sent) + XBeeSpec.SendByte(b, escaping && canEscape)
    {
      if escaping && canEscape && (b == START_BYTE || b == ESCAPE || b == XON || b == XOFF) {
        mSerial.Print(ESCAPE);
        mSerial.Print(Flip(b));
      } else {
        mSerial.Print(b);
      }
    }

    /** The start byte, the length and the two identifiers. */
    method SendHead(r: Request, ghost was: seq<byte>)
      requires |r.data| < 256 && mSerial.sent == was
      modifies mSerial`sent
      ensures Sent(FrameOf(r), 5, canEscape, was, mSerial.sent)
    {
      hide *;
      var n := |r.data| + 2;
      ghost var d := FrameOf(r);
      FrameBytes(r);
      SendByte(START_BYTE, false);
      EncodeStart(d, canEscape, was);
      ghost var now := mSerial.sent;
      SendByte(n / 256, true);
      EncodeNext(d, 1, canEscape, was, now, mSerial.sent);
      now := mSerial.sent;
      SendByte(n % 256, true);
      EncodeNext(d, 2, canEscape, was, now, mSerial.sent);
      now := mSerial.sent;
      SendByte(r.apiId, true);
      EncodeNext(d, 3, canEscape, was, now, mSerial.sent);
      now := mSerial.sent;
      SendByte(r.frameId, true);
      EncodeNext(d, 4, canEscape, was, now, mSerial.sent);
    }

    /** The frame data; returns the sum of the frame's contents. */
    method SendBody(r: Request, ghost was: seq<byte>) returns (check: byte)
      requires |r.data| < 256
      requires Sent(FrameOf(r), 5, canEscape, was, mSerial.sent)
      modifies mSerial`sent
      ensures Sent(FrameOf(r), 5 + |r.data|, canEscape, was, mSerial.sent)
      ensures check == SumTo(r, |r.data|) % 256
    {
      hide *;
      ghost var d := FrameOf(r);
      check := 0;
      check := (check + r.apiId) % 256;
      check := (check + r.frameId) % 256;
      CheckStart(r);
      for i := 0 to |r.data|
        invariant Sent(d, 5 + i, canEscape, was, mSerial.sent)
        invariant check == SumTo(r, i) % 256
      {
        FrameData(r, i);
        ghost var now := mSerial.sent;
        SendByte(r.data[i], true);
        EncodeNext(d, 5 + i, canEscape, was, now, mSerial.sent);
        CheckNext(r, i, check);
        check := (check + r.data[i]) % 256;
      }
    }

    /** The length byte of the frame data is a single byte, so a request has at most 255. */
    method Send(r: Request)
      requires |r.data| < 256
      modifies mSerial`sent
      ensures mSerial.sent == old(mSerial.sent) + Encode(FrameOf(r), canEscape)
    {
      hide *;
      ghost var d, was := FrameOf(r), mSerial.sent;
      FrameBytes(r);
      SendHead(r, was);
      var check := SendBody(r, was);
      ghost var now := mSerial.sent;
      check := (0xFF - check) % 256;
      SendByte(check, true);
      EncodeNext(d, 5 + |r.data|, canEscape, was, now, mSerial.sent);
      AllSent(d, canEscape, was, mSerial.sent);
    }

    // ---- Receiving ---------------------------------------------------------------------------------

    method ResetResponse()
      requires Valid()
      modifies this, frameData
      ensures Abs() == Reset(old(Abs())) && canEscape == old(canEscape)
    {
      pos, escape := 0, false;
      complete, errorCode, checksum := false, 0, 0;
      apiId, msbLength, lsbLength, frameLength := 0, 0, 0, 0;
      ClearData();
    }

    method ClearData()
      requires Valid()
      modifies frameData
      ensures frameData[..] == Zeros()
    {
      var i := 0;
      while i < MAX_FRAME_DATA_SIZE
        invariant 0 <= i <= MAX_FRAME_DATA_SIZE
        invariant forall k | 0 <= k < i :: frameData[k] == 0
      {
        frameData[i] := 0;
        i := i + 1;
      }
      assert frameData[..] == Zeros();
    }

    /** The switch on the position, for one unescaped byte. */
    method TakeByte(b: byte)
      requires Valid()
      modifies this, frameData
      ensures Abs() == Accept(old(Abs()), b) && canEscape == old(canEscape)
    {
      if pos >= API_ID_INDEX {
        checksumTotal := (checksumTotal + b) % 256;
      }
      if pos == 0 {
        if b == START_BYTE {
          pos := pos + 1;
        }
      } else if pos == 1 {
        msbLength, pos := b, pos + 1;
      } else if pos == 2 {
        lsbLength, pos := b, pos + 1;
      } else if pos == 3 {
        apiId, pos := b, pos + 1;
      } else if pos > MAX_FRAME_DATA_SIZE {
        errorCode := PACKET_EXCEEDS_BYTE_ARRAY_LENGTH;
      } else if pos == lsbLength + 3 {
        if checksumTotal == 0xFF {
          checksum, complete, errorCode := b, true, 0;
        } else {
          errorCode := CHECKSUM_FAILURE;
        }
        frameLength := pos - 4;
        pos, checksumTotal := 0, 0;
      } else {
        frameData[pos - 4] := b;
        pos := pos + 1;
      }
    }

    /** Reads until a packet is complete, an error occurs or no byte is left. */
    method ReadPacket()
      requires Valid()
      modifies this, frameData, mSerial`incoming
      ensures canEscape == old(canEscape)
      ensures Read(Abs(), mSerial.incoming)
              == XBeeSpec.ReadPacket(old(Abs()), old(mSerial.incoming), canEscape, mSerial.port)
    {
      hide Accept, Flip, Zeros;
      if complete || errorCode > 0 {
        ResetResponse();
      }
      ghost var goal := Loop(Abs(), mSerial.incoming, canEscape, mSerial.port);
      var more := mSerial.Available();
      while more
        invariant Loop(Abs(), mSerial.incoming, canEscape, mSerial.port) == goal && !Reported(Abs())
        invariant canEscape == old(canEscape)
        invariant !more ==> mSerial.incoming == []
        decreases |mSerial.incoming|, more
      {
        var n, b := mSerial.Read();
        if n < 1 {
          return;
        }
        if canEscape && pos > 0 && b == START_BYTE {
          errorCode := UNEXPECTED_START_BYTE;
          return;
        }
        if canEscape && pos > 0 && b == ESCAPE {
          more := mSerial.Available();
          if !more {
            escape := true;
            break;
          }
          n, b := mSerial.Read();
          if n < 1 {
            errorCode := AT_NO_RESPONSE;
            return;
          }
          b := Flip(b);
        }
        if canEscape && escape {
          b := Flip(b);
          escape := false;
        }
        TakeByte(b);
        if complete || errorCode > 0 {
          return;
        }
        more := mSerial.Available();
      }
    }
  }

  /** The first k bytes of a frame have been put on the line. */
  ghost predicate Sent(d: seq<byte>, k: nat, escaping: bool, was: seq<byte>, now: seq<byte>) {
    1 <= k <= |d| && now == was + Encode(d[..k], escaping)
  }

  function SumTo(r: Request, i: nat): nat
    requires i <= |r.data|
  {
    Sum([r.apiId, r.frameId] + r.data[..i])
  }

  lemma FrameBytes(r: Request)
    requires |r.data| < 256
    ensures var d := FrameOf(r); var n := |r.data|;
      && |d| == n + 6
      && d[0] == START_BYTE && d[1] == (n + 2) / 256 && d[2] == (n + 2) % 256
      && d[3] == r.apiId && d[4] == r.frameId && d[5 + n] == (0xFF - SumTo(r, n)) % 256
  {
    assert r.data[..|r.data|] == r.data;
  }

  lemma FrameData(r: Request, i: nat)
    requires |r.data| < 256 && i < |r.data|
    ensures |FrameOf(r)| == |r.data| + 6 && FrameOf(r)[5 + i] == r.data[i]
  {
  }

  lemma EncodeStart(d: seq<byte>, escaping: bool, was: seq<byte>)
    requires |d| > 0
    ensures Sent(d, 1, escaping, was, was + XBeeSpec.SendByte(d[0], false))
  {
    assert d[..1][1..] == [];
  }

  /** One more byte of the frame on the line. */
  lemma EncodeNext(d: seq<byte>, k: nat, escaping: bool, was: seq<byte>, now: seq<byte>, next: seq<byte>)
    requires k < |d| && Sent(d, k, escaping, was, now)
    requires next == now + XBeeSpec.SendByte(d[k], escaping)
    ensures Sent(d, k + 1, escaping, was, next)
  {
    EncodeSnoc(d, k, escaping);
    hide Encode, XBeeSpec.SendByte;
    Join(was, Encode(d[..k], escaping), XBeeSpec.SendByte(d[k], escaping));
  }

  lemma Join(a: seq<byte>, b: seq<byte>, c: seq<byte>)
    ensures a + b + c == a + (b + c)
  {
  }

  lemma EncodeSnoc(d: seq<byte>, k: nat, escaping: bool)
    requires 1 <= k < |d|
    ensures Encode(d[..k + 1], escaping) == Encode(d[..k], escaping) + XBeeSpec.SendByte(d[k], escaping)
  {
    var a, b := d[..k], d[..k + 1];
    assert b[1..] == a[1..] + [d[k]];
    SendAllAppend(a[1..], d[k], escaping);
    hide SendAll, XBeeSpec.SendByte;
    Join([d[0]], SendAll(a[1..], escaping), XBeeSpec.SendByte(d[k], escaping));
  }

  lemma AllSent(d: seq<byte>, escaping: bool, was: seq<byte>, now: seq<byte>)
    requires Sent(d, |d|, escaping, was, now)
    ensures now == was + Encode(d, escaping)
  {
    assert d[..|d|] == d;
  }

  lemma {:induction false} SendAllAppend(a: seq<byte>, b: byte, escaping: bool)
    ensures SendAll(a + [b], escaping) == SendAll(a, escaping) + XBeeSpec.SendByte(b, escaping)
  {
    if a == [] {
      assert a + [b] == [b];
      assert [b][1..] == [];
    } else {
      assert (a + [b])[1..] == a[1..] + [b];
      SendAllAppend(a[1..], b, escaping);
    }
  }

  lemma CheckStart(r: Request)
    ensures SumTo(r, 0) == r.apiId + r.frameId
  {
    var a := [r.apiId, r.frameId];
    assert a + r.data[..0] == a;
    assert a[..1] == [r.apiId] && [r.apiId][..0] == [];
    assert Sum([r.apiId]) == Sum([]) + r.apiId;
  }

  lemma CheckNext(r: Request, i: nat, check: byte)
    requires i < |r.data| && check == SumTo(r, i) % 256
    ensures (check + r.data[i]) % 256 == SumTo(r, i + 1) % 256
  {
    var a := [r.apiId, r.frameId] + r.data[..i + 1];
    assert a[..|a| - 1] == [r.apiId, r.frameId] + r.data[..i];
  }
}

/**
 * The parser against the encoder: frames cut at any byte, streams with noise, damaged frames.
 */
module XBeeProof {
  import opened Bitwise
  import opened XBeeSpec

  /** A frame as decoded bytes, checksum last, whose low length byte counts what lies between. */
  predicate Shape(d: seq<byte>) {
    5 <= |d| <= 256 && d[0] == START_BYTE && d[2] == |d| - 4
  }

  /** The parser stores byte k and goes on. */
  predicate Passes(d: seq<byte>, k: nat) {
    k < 4 || (2 < |d| && k - 3 != d[2] && k <= MAX_FRAME_DATA_SIZE)
  }

  function TotalAt(d: seq<byte>, k: nat, t0: byte): byte
    requires k <= |d|
  {
    if k <= API_ID_INDEX then t0 else (t0 + Sum(d[API_ID_INDEX..k])) % 256
  }

  /** The parser has taken in k bytes of d, having started with checksum total t0. */
  predicate At(s: State, d: seq<byte>, k: nat, esc: bool, t0: byte)
    requires k <= |d|
  {
    && Wide(s) && !Reported(s)
    && s.pos == k && s.escape == esc && s.total == TotalAt(d, k, t0)
    && (k > 1 ==> s.msb == d[1]) && (k > 2 ==> s.lsb == d[2]) && (k > 3 ==> s.api == d[3])
    && (4 <= k <= 256 ==> s.data[..k - 4] == d[4..k])
  }

  /** What is still to come on the line. */
  function Remaining(d: seq<byte>, k: nat, esc: bool, escaping: bool): seq<byte>
    requires 0 < k <= |d| && (esc ==> k < |d|)
  {
    if esc then [Flip(d[k])] + SendAll(d[k + 1..], escaping) else SendAll(d[k..], escaping)
  }

  predicate Good(d: seq<byte>, t0: byte)
    requires Shape(d)
  {
    (t0 + Sum(d[API_ID_INDEX..])) % 256 == 0xFF
  }

  /** The parser has just finished with d, and reports a packet exactly if the bytes add up. */
  predicate Done(s: State, d: seq<byte>, t0: byte)
    requires Shape(d)
  {
    var n := |d| - 5;
    && Wide(s) && s.pos == 0 && s.total == 0 && !s.escape
    && s.msb == d[1] && s.lsb == d[2] && s.frameLength == n && s.api == d[3] && s.data[..n] == d[4..|d| - 1]
    && (if Good(d, t0) then s.available && s.error == 0 && s.checksum == d[|d| - 1]
        else !s.available && s.error == CHECKSUM_FAILURE)
  }

  predicate Idle(s: State, t0: byte) {
    Wide(s) && s.pos == 0 && !s.escape && s.total == t0
  }

  lemma SumNext(d: seq<byte>, a: nat, k: nat)
    requires a <= k < |d|
    ensures Sum(d[a..k + 1]) == Sum(d[a..k]) + d[k]
  {
    assert d[a..k + 1][..k - a] == d[a..k];
  }

  lemma TotalNext(d: seq<byte>, k: nat, t0: byte)
    requires API_ID_INDEX <= k < |d|
    ensures TotalAt(d, k + 1, t0) == (TotalAt(d, k, t0) + d[k]) % 256
  {
    SumNext(d, API_ID_INDEX, k);
    if k == API_ID_INDEX {
      assert d[3..3] == [];
    } else {
      ModSum(t0 + Sum(d[API_ID_INDEX..k]), d[k]);
    }
  }

  lemma ModSum(a: nat, b: nat)
    ensures (a % 256 + b) % 256 == (a + b) % 256
  {
  }

  lemma AcceptNext(s: State, d: seq<byte>, k: nat, t0: byte)
    requires k < |d| && d[0] == START_BYTE && At(s, d, k, false, t0) && Passes(d, k)
    ensures At(Accept(s, d[k]), d, k + 1, false, t0)
  {
    if k >= API_ID_INDEX { TotalNext(d, k, t0); }
    if k >= 4 {
      assert d[4..k + 1] == d[4..k] + [d[k]];
      assert Accept(s, d[k]).data[..k - 3] == s.data[..k - 4] + [d[k]];
    }
  }

  lemma AcceptLast(s: State, d: seq<byte>, t0: byte)
    requires Shape(d) && At(s, d, |d| - 1, false, t0)
    ensures Done(Accept(s, d[|d| - 1]), d, t0)
  {
    TotalNext(d, |d| - 1, t0);
    assert d[API_ID_INDEX..|d|] == d[API_ID_INDEX..];
  }

  // ---- Escaping ------------------------------------------------------------------------------------

  lemma XorEven(b: nat, c: nat)
    requires c % 2 == 0
    ensures Xor(b, c) == b % 2 + 2 * Xor(b / 2, c / 2)
  {
  }

  /** Only bit five changes. */
  lemma FlipIs(b: byte)
    ensures Flip(b) == if b / 32 % 2 == 0 then b + 32 else b - 32
  {
    hide Xor;
    XorEven(b, 32);
    XorEven(b / 2, 16);
    XorEven(b / 4, 8);
    XorEven(b / 8, 4);
    XorEven(b / 16, 2);
    XorOne(b / 32);
  }

  lemma XorOne(x: nat)
    ensures Xor(x, 1) == if x % 2 == 0 then x + 1 else x - 1
  {
  }

  lemma FlipSpecial(b: byte)
    requires Special(b)
    ensures !Special(Flip(b))
  {
    FlipIs(b);
  }

  /** After the start byte an escaped frame holds no start, XON or XOFF byte. */
  lemma {:induction false} NoControlBytes(d: seq<byte>)
    ensures forall i | 0 <= i < |SendAll(d, true)| ::
              var b := SendAll(d, true)[i]; b != START_BYTE && b != XON && b != XOFF
    ensures d != [] ==> SendAll(d, true) != [] && SendAll(d, true)[|SendAll(d, true)| - 1] != ESCAPE
  {
    if d != [] {
      NoControlBytes(d[1..]);
      if Special(d[0]) { FlipSpecial(d[0]); }
    }
  }

  lemma SendAllNext(d: seq<byte>, k: nat, escaping: bool)
    requires k < |d|
    ensures SendAll(d[k..], escaping) == SendByte(d[k], escaping) + SendAll(d[k + 1..], escaping)
  {
    assert d[k..][1..] == d[k + 1..];
  }

  // ---- One frame, cut anywhere ---------------------------------------------------------------------

  /** What a call leaves when the bytes run out inside the frame. */
  predicate Cut(s: State, d: seq<byte>, k: nat, esc: bool, t0: byte, port: Port)
    requires k <= |d|
  {
    if esc && port.Connected? then
      Wide(s) && s.error == AT_NO_RESPONSE && !s.available && s.total == TotalAt(d, k, t0)
    else At(s, d, k, esc, t0)
  }

  /** Where the parser stands after the first m bytes of what remains. */
  predicate Reaches(s: State, d: seq<byte>, k: nat, esc: bool, t0: byte, more: seq<byte>, escaping: bool, port: Port) {
    && 0 < k < |d| && (esc ==> escaping && Special(d[k]))
    && Cut(s, d, k, esc, t0, port)
    && more == Remaining(d, k, esc, escaping)
  }

  /** One byte of the frame, or one escape pair, taken in by the loop. */
  lemma LoopOne(s: State, d: seq<byte>, k: nat, t0: byte, input: seq<byte>, escaping: bool, port: Port)
    requires d != [] && d[0] == START_BYTE && 0 < k < |d| && At(s, d, k, false, t0)
    requires SendByte(d[k], escaping) <= input
    ensures var t := Accept(s, d[k]); var rest := input[|SendByte(d[k], escaping)|..];
      Loop(s, input, escaping, port) == if Reported(t) then Read(t, rest) else Loop(t, rest, escaping, port)
  {
    hide Accept;
    FlipTwice(d[k]);
    if escaping && Special(d[k]) {
      assert input[0] == ESCAPE && input[1] == Flip(d[k]);
      assert input[1..][1..] == input[2..];
    } else {
      assert input[0] == d[k];
    }
  }

  /** All that remains of the frame arrives, perhaps with more behind it. */
  lemma {:induction false} LoopWhole(s: State, d: seq<byte>, k: nat, t0: byte, after: seq<byte>,
                                     escaping: bool, port: Port)
    requires Shape(d) && 0 < k < |d| && At(s, d, k, false, t0)
    ensures var r := Loop(s, SendAll(d[k..], escaping) + after, escaping, port);
      Done(r.state, d, t0) && r.rest == after
    decreases |d| - k
  {
    hide Accept, Loop;
    var first := SendByte(d[k], escaping);
    var rest := SendAll(d[k + 1..], escaping) + after;
    SendAllNext(d, k, escaping);
    assert SendAll(d[k..], escaping) + after == first + rest;
    LoopOne(s, d, k, t0, first + rest, escaping, port);
    assert (first + rest)[|first|..] == rest;
    if k == |d| - 1 {
      AcceptLast(s, d, t0);
      assert d[k + 1..] == [];
      assert rest == after;
    } else {
      AcceptNext(s, d, k, t0);
      LoopWhole(Accept(s, d[k]), d, k + 1, t0, after, escaping, port);
    }
  }

  lemma CutBehind(first: seq<byte>, tail: seq<byte>, m: nat)
    requires |first| <= m <= |first + tail|
    ensures (first + tail)[..m][|first|..] == tail[..m - |first|] && (first + tail)[m..] == tail[m - |first|..]
    ensures m > 0 ==> (first + tail)[m - 1] == if m == |first| then first[m - 1] else tail[m - 1 - |first|]
  {
  }

  /** Only the first m bytes of what remains arrive. */
  lemma {:induction false} LoopPart(s: State, d: seq<byte>, k: nat, t0: byte, m: nat, escaping: bool, port: Port)
    returns (k': nat, esc': bool)
    requires Shape(d) && 0 < k < |d| && At(s, d, k, false, t0) && m < |SendAll(d[k..], escaping)|
    ensures var rem := SendAll(d[k..], escaping); var r := Loop(s, rem[..m], escaping, port);
      && r.rest == [] && Reaches(r.state, d, k', esc', t0, rem[m..], escaping, port)
      && (esc' <==> escaping && m > 0 && rem[m - 1] == ESCAPE)
    decreases |d| - k
  {
    hide Accept, Loop;
    var rem, first, tail := SendAll(d[k..], escaping), SendByte(d[k], escaping), SendAll(d[k + 1..], escaping);
    SendAllNext(d, k, escaping);
    if m < |first| {
      k', esc' := k, m == 1;
      LoopShort(s, d, k, t0, m, escaping, port);
    } else {
      LoopOne(s, d, k, t0, rem[..m], escaping, port);
      CutBehind(first, tail, m);
      LastOfPair(d[k], escaping);
      hide SendAll, SendByte;
      assert d[|d|..] == [];
      AcceptNext(s, d, k, t0);
      k', esc' := LoopPart(Accept(s, d[k]), d, k + 1, t0, m - |first|, escaping, port);
    }
  }

  /** Nothing arrives, or only the first half of a pair. */
  lemma LoopShort(s: State, d: seq<byte>, k: nat, t0: byte, m: nat, escaping: bool, port: Port)
    requires Shape(d) && 0 < k < |d| && At(s, d, k, false, t0) && m < |SendByte(d[k], escaping)|
    ensures var rem := SendAll(d[k..], escaping); var r := Loop(s, rem[..m], escaping, port);
      && r.rest == [] && Reaches(r.state, d, k, m == 1, t0, rem[m..], escaping, port)
      && (m == 1 <==> escaping && m > 0 && rem[m - 1] == ESCAPE)
  {
    SendAllNext(d, k, escaping);
    var rem := SendAll(d[k..], escaping);
    if m == 1 {
      assert rem[1..] == [Flip(d[k])] + SendAll(d[k + 1..], escaping);
      assert rem[..1] == [ESCAPE];
    } else {
      assert rem[..0] == [] && rem[0..] == rem;
    }
    hide Accept, SendAll, Flip;
  }

  lemma LastOfPair(b: byte, escaping: bool)
    ensures escaping ==> SendByte(b, escaping)[|SendByte(b, escaping)| - 1] != ESCAPE
  {
    if Special(b) { FlipSpecial(b); }
  }

  /** The partner of an escape byte that came with an earlier call. */
  lemma LoopPartner(s: State, d: seq<byte>, k: nat, t0: byte, rest: seq<byte>, port: Port)
    requires d != [] && d[0] == START_BYTE && 0 < k < |d| && At(s, d, k, true, t0) && Special(d[k])
    ensures At(s.(escape := false), d, k, false, t0)
    ensures var t := Accept(s.(escape := false), d[k]);
      Loop(s, [Flip(d[k])] + rest, true, port) == if Reported(t) then Read(t, rest) else Loop(t, rest, true, port)
  {
    hide Accept;
    FlipTwice(d[k]);
    FlipSpecial(d[k]);
    assert ([Flip(d[k])] + rest)[1..] == rest;
  }

  lemma WholeFrom(s: State, d: seq<byte>, k: nat, esc: bool, t0: byte, after: seq<byte>, escaping: bool, port: Port)
    requires Shape(d) && 0 < k < |d| && At(s, d, k, esc, t0) && (esc ==> escaping && Special(d[k]))
    ensures var r := Loop(s, Remaining(d, k, esc, escaping) + after, escaping, port);
      Done(r.state, d, t0) && r.rest == after
  {
    hide Accept, Loop;
    if !esc {
      LoopWhole(s, d, k, t0, after, escaping, port);
    } else {
      var rest := SendAll(d[k + 1..], escaping) + after;
      assert Remaining(d, k, esc, escaping) + after == [Flip(d[k])] + rest;
      LoopPartner(s, d, k, t0, rest, port);
      if k == |d| - 1 {
        AcceptLast(s.(escape := false), d, t0);
        assert d[k + 1..] == [];
        assert rest == after;
      } else {
        AcceptNext(s.(escape := false), d, k, t0);
        LoopWhole(Accept(s.(escape := false), d[k]), d, k + 1, t0, after, escaping, port);
      }
    }
  }

  lemma PartFrom(s: State, d: seq<byte>, k: nat, esc: bool, t0: byte, m: nat, escaping: bool, port: Port)
    returns (k': nat, esc': bool)
    requires Shape(d) && 0 < k < |d| && At(s, d, k, esc, t0)
    requires esc ==> escaping && Special(d[k]) && port.Polled?
    requires m < |Remaining(d, k, esc, escaping)|
    ensures var rem := Remaining(d, k, esc, escaping); var r := Loop(s, rem[..m], escaping, port);
      && r.rest == [] && Reaches(r.state, d, k', esc', t0, rem[m..], escaping, port)
      && (esc' <==> if m == 0 then esc else escaping && rem[m - 1] == ESCAPE)
  {
    hide Accept;
    var rem := Remaining(d, k, esc, escaping);
    if !esc {
      hide Loop;
      k', esc' := LoopPart(s, d, k, t0, m, escaping, port);
    } else if m == 0 {
      k', esc' := k, esc;
      assert rem[0..] == rem;
    } else {
      var tail := SendAll(d[k + 1..], escaping);
      assert k + 1 < |d|;
      hide Loop, SendAll;
      assert rem[..m] == [Flip(d[k])] + tail[..m - 1] && rem[m..] == tail[m - 1..];
      LoopPartner(s, d, k, t0, tail[..m - 1], port);
      FlipSpecial(d[k]);
      AcceptNext(s.(escape := false), d, k, t0);
      k', esc' := LoopPart(Accept(s.(escape := false), d[k]), d, k + 1, t0, m - 1, escaping, port);
    }
  }

  // ---- Between frames ------------------------------------------------------------------------------

  predicate Quiet(noise: seq<byte>) {
    forall i | 0 <= i < |noise| :: noise[i] != START_BYTE
  }

  /** An idle parser skips whatever is not a start byte. */
  lemma {:induction false} SkipNoise(s: State, noise: seq<byte>, rest: seq<byte>, t0: byte, escaping: bool, port: Port)
    requires Idle(s, t0) && !Reported(s) && Quiet(noise)
    ensures Loop(s, noise + rest, escaping, port) == Loop(s, rest, escaping, port)
  {
    if noise == [] {
      assert noise + rest == rest;
    } else {
      assert (noise + rest)[1..] == noise[1..] + rest;
      SkipNoise(s, noise[1..], rest, t0, escaping, port);
    }
  }

  /** The state right after a start byte. */
  lemma TakeStart(s: State, d: seq<byte>, rest: seq<byte>, t0: byte, escaping: bool, port: Port)
    requires Idle(s, t0) && !Reported(s) && Shape(d)
    ensures At(s.(pos := 1), d, 1, false, t0)
    ensures Loop(s, [d[0]] + rest, escaping, port) == Loop(s.(pos := 1), rest, escaping, port)
  {
    assert ([d[0]] + rest)[1..] == rest;
  }

  /** Two reads in a row, the first of which ends between bytes, are one read of both parts. */
  lemma {:induction false} LoopJoin(s: State, a: seq<byte>, b: seq<byte>, escaping: bool, port: Port)
    requires Wide(s)
    requires var r := Loop(s, a, escaping, port); r.rest == [] && !Reported(r.state) && !r.state.escape
    ensures Loop(s, a + b, escaping, port) == Loop(Loop(s, a, escaping, port).state, b, escaping, port)
    decreases |a|
  {
    hide Accept;
    if a == [] {
      assert a + b == b;
    } else {
      assert (a + b)[1..] == a[1..] + b;
      var pair := escaping && s.pos > 0 && a[0] == ESCAPE;
      if !pair || |a| > 1 {
        var c := if pair then Flip(a[1]) else a[0];
        var left := if pair then a[2..] else a[1..];
        assert pair ==> (a + b)[1..][1..] == a[2..] + b && a[1..][1..] == a[2..];
        var flip := escaping && s.escape;
        var t := Accept(if flip then s.(escape := false) else s, if flip then Flip(c) else c);
        if !Reported(t) { LoopJoin(t, left, b, escaping, port); }
      }
    }
  }

  // ---- The line --------------------------------------------------------------------------------------

  /** A frame after some noise, sent to its end or given up behind `cut` bytes for the start of another. */
  datatype Segment = Segment(noise: seq<byte>, frame: seq<byte>)
                   | Aborted(noise: seq<byte>, frame: seq<byte>, cut: nat)

  predicate Sound(g: Segment) {
    Quiet(g.noise) && Shape(g.frame) && (g.Aborted? ==> 0 < g.cut < |g.frame|)
  }

  predicate WellFormed(script: seq<Segment>) {
    forall i | 0 <= i < |script| :: Sound(script[i])
  }

  /** Every frame is sent to its end. */
  predicate Unbroken(script: seq<Segment>) {
    forall i | 0 <= i < |script| :: script[i].Segment?
  }

  /** What travels on the line: frames with noise before each and after the last. Behind a frame that was
      given up comes the start byte of the next; the rest of that next frame is noise to the parser. */
  function Line(script: seq<Segment>, tail: seq<byte>, escaping: bool): seq<byte>
    requires WellFormed(script)
  {
    if script == [] then tail
    else
      var rest := Line(script[1..], tail, escaping);
      script[0].noise +
      match script[0]
      case Segment(_, d) => Encode(d, escaping) + rest
      case Aborted(_, d, cut) => Encode(d[..cut], escaping) + ([START_BYTE] + rest)
  }

  datatype Report = Packet(api: byte, data: seq<byte>) | Failure(code: byte)

  function Outcome(d: seq<byte>, t0: byte): Report
    requires Shape(d)
  {
    if Good(d, t0) then Packet(d[3], d[4..|d| - 1]) else Failure(CHECKSUM_FAILURE)
  }

  /** One report a frame. A frame that was given up leaves its checksum total behind for the next. */
  function Outcomes(script: seq<Segment>, t0: byte): seq<Report>
    requires WellFormed(script)
  {
    if script == [] then []
    else match script[0]
      case Segment(_, d) => [Outcome(d, t0)] + Outcomes(script[1..], 0)
      case Aborted(_, d, cut) => [Failure(UNEXPECTED_START_BYTE)] + Outcomes(script[1..], TotalAt(d, cut, t0))
  }

  function ReportOf(s: State): Report
    requires Reported(s)
  {
    if s.available && 0 <= s.frameLength <= |s.data| then Packet(s.api, s.data[..s.frameLength]) else Failure(s.error)
  }

  /** The state in which the next call starts to read. */
  function Settled(s: State): State {
    if Reported(s) then Reset(s) else s
  }

  /** Of what is still to come of the whole frame, the part in front of byte `cut`. */
  predicate InFront(part: seq<byte>, d: seq<byte>, k: nat, esc: bool, cut: nat, escaping: bool)
    requires 0 < k < |d| && cut <= |d|
  {
    part + SendAll(d[cut..], escaping) == Remaining(d, k, esc, escaping)
  }

  datatype Where = Between | Inside(k: nat, esc: bool, part: seq<byte>)

  /** The parser is in step with the line: these bytes are still to come. */
  predicate InStep(s: State, script: seq<Segment>, tail: seq<byte>, t0: byte, w: Where, line: seq<byte>,
                   escaping: bool, port: Port)
    requires WellFormed(script)
  {
    && Quiet(tail) && (escaping || Unbroken(script))
    && match w
       case Between => Wide(s) && Idle(Settled(s), t0) && line == Line(script, tail, escaping)
       case Inside(k, esc, part) =>
         && script != [] && 0 < k < |script[0].frame| && At(s, script[0].frame, k, esc, t0)
         && (esc ==> escaping && Special(script[0].frame[k]) && port.Polled?)
         && match script[0]
            case Segment(_, d) =>
              part == Remaining(d, k, esc, escaping) && line == part + Line(script[1..], tail, escaping)
            case Aborted(_, d, cut) =>
              && InFront(part, d, k, esc, cut, escaping)
              && line == part + ([START_BYTE] + Line(script[1..], tail, escaping))
  }

  /** With escaping, a call that finds the line cut right behind an escape byte is only safe on a polled port. */
  predicate SafeCut(pending: seq<byte>, escaping: bool, port: Port) {
    !escaping || port.Polled? || pending == [] || pending[|pending| - 1] != ESCAPE
  }

  lemma {:induction false} SendAllJoin(a: seq<byte>, b: seq<byte>, escaping: bool)
    ensures SendAll(a + b, escaping) == SendAll(a, escaping) + SendAll(b, escaping)
  {
    if a == [] {
      assert a + b == b;
    } else {
      assert (a + b)[1..] == a[1..] + b;
      SendAllJoin(a[1..], b, escaping);
    }
  }

  lemma SendAllSplit(d: seq<byte>, k: nat, cut: nat, escaping: bool)
    requires k <= cut <= |d|
    ensures SendAll(d[..cut][k..], escaping) + SendAll(d[cut..], escaping) == SendAll(d[k..], escaping)
  {
    assert d[..cut][k..] + d[cut..] == d[k..];
    SendAllJoin(d[..cut][k..], d[cut..], escaping);
  }

  /** What is left of a frame tells where the parser is. */
  lemma RemainingTells(d: seq<byte>, k: nat, esc: bool, k': nat, esc': bool, escaping: bool)
    requires 0 < k < |d| && 0 < k' < |d|
    requires (esc ==> escaping && Special(d[k])) && (esc' ==> escaping && Special(d[k']))
    requires Remaining(d, k, esc, escaping) == Remaining(d, k', esc', escaping)
    ensures k == k' && esc == esc'
  {
    SendAllNext(d, k, escaping);
    SendAllNext(d, k', escaping);
    if k < k' {
      SendAllSplit(d, k + 1, k', escaping);
    } else if k' < k {
      SendAllSplit(d, k' + 1, k, escaping);
    }
  }

  /** A call that ends inside the frame. */
  lemma ReadPart(s: State, script: seq<Segment>, tail: seq<byte>, t0: byte, k: nat, esc: bool, part: seq<byte>,
                 pending: seq<byte>, future: seq<byte>, escaping: bool, port: Port)
    returns (w: Where)
    requires WellFormed(script) && InStep(s, script, tail, t0, Inside(k, esc, part), pending + future, escaping, port)
    requires SafeCut(pending, escaping, port) && |pending| <= |part| && (script[0].Segment? ==> |pending| < |part|)
    ensures var r := Loop(s, pending, escaping, port);
      r.rest == [] && !Reported(r.state) && InStep(r.state, script, tail, t0, w, future, escaping, port)
  {
    hide Accept, Loop, SendAll, Line;
    var d, m := script[0].frame, |pending|;
    var rem := Remaining(d, k, esc, escaping);
    var rest := if script[0].Segment? then [] else SendAll(d[script[0].cut..], escaping);
    if script[0].Aborted? { SendAllNext(d, script[0].cut, escaping); }
    CutInside(part, pending, future, rest, rem);
    var k', esc' := PartFrom(s, d, k, esc, t0, m, escaping, port);
    w := Inside(k', esc', part[m..]);
  }

  lemma CutInside(part: seq<byte>, pending: seq<byte>, future: seq<byte>, rest: seq<byte>, rem: seq<byte>)
    requires |pending| <= |part| <= |pending + future| && part == (pending + future)[..|part|] && rem == part + rest
    ensures var m := |pending|;
      && pending == part[..m] == rem[..m] && part[m..] + rest == rem[m..]
      && future == part[m..] + (pending + future)[|part|..]
  {
    assert pending == (pending + future)[..|pending|];
    assert future == (pending + future)[|pending|..];
  }

  /** A call that reaches the end of the frame. */
  lemma ReadWhole(s: State, script: seq<Segment>, tail: seq<byte>, t0: byte, k: nat, esc: bool, part: seq<byte>,
                  pending: seq<byte>, future: seq<byte>, escaping: bool, port: Port)
    requires WellFormed(script) && InStep(s, script, tail, t0, Inside(k, esc, part), pending + future, escaping, port)
    requires script[0].Segment? && |pending| >= |part|
    ensures var r := Loop(s, pending, escaping, port);
      && Reported(r.state) && ReportOf(r.state) == Outcome(script[0].frame, t0)
      && InStep(r.state, script[1..], tail, 0, Between, r.rest + future, escaping, port)
  {
    hide Accept, Loop;
    var d := script[0].frame;
    var after := pending[|part|..];
    assert part == (pending + future)[..|part|] == pending[..|part|];
    assert pending == part + after;
    WholeFrom(s, d, k, esc, t0, after, escaping, port);
    assert after + future == (pending + future)[|part|..] == Line(script[1..], tail, escaping);
  }

  /** A call that reaches the start byte behind a frame that was given up: it takes that byte and reports,
      and the checksum total of the lost frame stays. */
  lemma ReadAborted(s: State, script: seq<Segment>, tail: seq<byte>, t0: byte, k: nat, esc: bool, part: seq<byte>,
                    pending: seq<byte>, future: seq<byte>, escaping: bool, port: Port)
    requires WellFormed(script) && InStep(s, script, tail, t0, Inside(k, esc, part), pending + future, escaping, port)
    requires script[0].Aborted? && |pending| > |part|
    ensures var r := Loop(s, pending, escaping, port);
      && Reported(r.state) && ReportOf(r.state) == Failure(UNEXPECTED_START_BYTE)
      && InStep(r.state, script[1..], tail, TotalAt(script[0].frame, script[0].cut, t0), Between, r.rest + future,
                escaping, port)
  {
    hide Accept, Loop, Line, SendAll, TotalAt;
    var d, cut, m := script[0].frame, script[0].cut, |part|;
    var after := pending[m + 1..];
    assert part == (pending + future)[..m] == pending[..m];
    assert pending[m] == (pending + future)[m] == START_BYTE;
    assert pending == part + ([START_BYTE] + after);
    assert after + future == (pending + future)[m + 1..] == Line(script[1..], tail, escaping);
    var t := ReachCut(s, d, k, esc, t0, part, cut, port);
    LoopJoin(s, part, [START_BYTE] + after, true, port);
    LoopAbort(t, after, port);
  }

  lemma LoopAbort(s: State, after: seq<byte>, port: Port)
    requires Wide(s) && s.pos > 0
    ensures Loop(s, [START_BYTE] + after, true, port) == Read(s.(error := UNEXPECTED_START_BYTE), after)
  {
    assert ([START_BYTE] + after)[1..] == after;
  }

  lemma ReachCut(s: State, d: seq<byte>, k: nat, esc: bool, t0: byte, part: seq<byte>, cut: nat, port: Port)
    returns (t: State)
    requires Shape(d) && 0 < k < |d| && At(s, d, k, esc, t0) && (esc ==> Special(d[k]) && port.Polled?)
    requires 0 < cut < |d| && InFront(part, d, k, esc, cut, true)
    ensures Loop(s, part, true, port) == Read(t, []) && At(t, d, cut, false, t0)
  {
    hide Accept, Loop;
    var rem := Remaining(d, k, esc, true);
    SendAllNext(d, cut, true);
    assert rem[..|part|] == part && rem[|part|..] == SendAll(d[cut..], true);
    var k', esc' := PartFrom(s, d, k, esc, t0, |part|, true, port);
    RemainingTells(d, k', esc', cut, false, true);
    t := Loop(s, part, true, port).state;
  }

  /** A call between frames that only finds noise. */
  lemma ReadNoise(s: State, script: seq<Segment>, tail: seq<byte>, t0: byte,
                  pending: seq<byte>, future: seq<byte>, escaping: bool, port: Port)
    returns (script': seq<Segment>, tail': seq<byte>)
    requires WellFormed(script) && InStep(s, script, tail, t0, Between, pending + future, escaping, port)
    requires !Reported(s) && |pending| <= |NextNoise(script, tail)|
    ensures WellFormed(script') && InStep(s, script', tail', t0, Between, future, escaping, port)
    ensures Loop(s, pending, escaping, port) == Read(s, [])
    ensures Outcomes(script', t0) == Outcomes(script, t0)
    ensures script == [] ==> script' == [] && tail' == tail[|pending|..]
    ensures script != [] ==>
              script' == [script[0].(noise := script[0].noise[|pending|..])] + script[1..] && tail' == tail
  {
    hide Loop;
    var noise, m := NextNoise(script, tail), |pending|;
    script', tail' := script, tail;
    assert pending == (pending + future)[..m] == noise[..m];
    SkipNoise(s, pending, [], t0, escaping, port);
    LoopNothing(s, escaping, port);
    assert pending + [] == pending;
    assert future == (pending + future)[m..];
    if script == [] {
      tail' := noise[m..];
    } else {
      script' := [script[0].(noise := noise[m..])] + script[1..];
      assert script'[1..] == script[1..];
      assert future == noise[m..] + Line(script, tail, escaping)[|noise|..];
    }
  }

  function NextNoise(script: seq<Segment>, tail: seq<byte>): seq<byte> {
    if script == [] then tail else script[0].noise
  }

  /** What a frame looks like to the parser right after its start byte. */
  function FirstPart(g: Segment, escaping: bool): seq<byte>
    requires Sound(g)
  {
    if g.Segment? then SendAll(g.frame[1..], escaping) else SendAll(g.frame[..g.cut][1..], escaping)
  }

  /** A call between frames that finds the next start byte. */
  lemma ReadStart(s: State, script: seq<Segment>, tail: seq<byte>, t0: byte,
                  pending: seq<byte>, future: seq<byte>, escaping: bool, port: Port)
    returns (left: seq<byte>, part: seq<byte>)
    requires WellFormed(script) && InStep(s, script, tail, t0, Between, pending + future, escaping, port)
    requires !Reported(s) && |pending| > |NextNoise(script, tail)|
    ensures script != []
    ensures InStep(s.(pos := 1), script, tail, t0, Inside(1, false, part), left + future, escaping, port)
    ensures Loop(s, pending, escaping, port) == Loop(s.(pos := 1), left, escaping, port)
    ensures pending == script[0].noise + ([START_BYTE] + left)
    ensures SafeCut(pending, escaping, port) ==> SafeCut(left, escaping, port)
  {
    hide Loop, Line, Encode, SendAll;
    LineStart(script, tail, escaping);
    assert script != [];
    var d, rest := script[0].frame, Line(script[1..], tail, escaping);
    part := FirstPart(script[0], escaping);
    var behind := if script[0].Segment? then rest else [START_BYTE] + rest;
    left := PastNoise(script[0].noise, d[0], part + behind, pending, future);
    SkipNoise(s, script[0].noise, [d[0]] + left, t0, escaping, port);
    TakeStart(s, d, left, t0, escaping, port);
  }

  lemma LineStart(script: seq<Segment>, tail: seq<byte>, escaping: bool)
    requires WellFormed(script)
    ensures script == [] ==> Line(script, tail, escaping) == tail
    ensures script != [] ==>
              var g, rest := script[0], Line(script[1..], tail, escaping);
              && Line(script, tail, escaping)
                 == g.noise
                    + ([START_BYTE] + (FirstPart(g, escaping) + if g.Segment? then rest else [START_BYTE] + rest))
              && if g.Segment? then FirstPart(g, escaping) == Remaining(g.frame, 1, false, escaping)
                 else InFront(FirstPart(g, escaping), g.frame, 1, false, g.cut, escaping)
  {
    if script != [] {
      var g, rest := script[0], Line(script[1..], tail, escaping);
      if g.Aborted? {
        SendAllSplit(g.frame, 1, g.cut, escaping);
        assert g.frame[..g.cut][0] == START_BYTE;
      }
      hide *;
      FirstPartFact(g, escaping);
      Associates([START_BYTE], FirstPart(g, escaping), if g.Segment? then rest else [START_BYTE] + rest);
    }
  }

  lemma FirstPartFact(g: Segment, escaping: bool)
    requires Sound(g)
    ensures g.Segment? ==> Encode(g.frame, escaping) == [START_BYTE] + FirstPart(g, escaping)
    ensures g.Aborted? ==> Encode(g.frame[..g.cut], escaping) == [START_BYTE] + FirstPart(g, escaping)
    ensures g.Segment? ==> FirstPart(g, escaping) == Remaining(g.frame, 1, false, escaping)
  {
  }

  lemma Associates(a: seq<byte>, b: seq<byte>, c: seq<byte>)
    ensures (a + b) + c == a + (b + c)
  {
  }

  lemma PastNoise(noise: seq<byte>, b: byte, body: seq<byte>, pending: seq<byte>, future: seq<byte>)
    returns (left: seq<byte>)
    requires pending + future == noise + ([b] + body) && |pending| > |noise|
    ensures pending == noise + ([b] + left) && left + future == body
  {
    var n := |noise|;
    left := pending[n + 1..];
    assert noise == (pending + future)[..n] == pending[..n];
    assert pending[n] == (pending + future)[n] == b;
    assert left + future == (pending + future)[n + 1..];
  }

  /** One call of the parser, whatever part of the line has arrived. */
  lemma ReadInStep(s: State, script: seq<Segment>, tail: seq<byte>, t0: byte, w: Where,
                   pending: seq<byte>, future: seq<byte>, escaping: bool, port: Port)
    returns (script': seq<Segment>, tail': seq<byte>, t1: byte, w': Where)
    requires WellFormed(script) && InStep(s, script, tail, t0, w, pending + future, escaping, port)
    requires SafeCut(pending, escaping, port)
    ensures var r := ReadPacket(s, pending, escaping, port);
      && WellFormed(script') && InStep(r.state, script', tail', t1, w', r.rest + future, escaping, port)
      && Outcomes(script, t0) == (if Reported(r.state) then [ReportOf(r.state)] else []) + Outcomes(script', t1)
      && (!Reported(r.state) ==> r.rest == [])
  {
    hide Loop;
    var u := Settled(s);
    if w.Between? && |pending| <= |NextNoise(script, tail)| {
      script', tail' := ReadNoise(u, script, tail, t0, pending, future, escaping, port);
      t1, w' := t0, w;
    } else if w.Between? {
      var left, part := ReadStart(u, script, tail, t0, pending, future, escaping, port);
      script', tail', t1, w' := ReadOn(u.(pos := 1), script, tail, t0, 1, false, part, left, future, escaping, port);
    } else {
      script', tail', t1, w' := ReadOn(s, script, tail, t0, w.k, w.esc, w.part, pending, future, escaping, port);
    }
  }

  lemma ReadOn(s: State, script: seq<Segment>, tail: seq<byte>, t0: byte, k: nat, esc: bool, part: seq<byte>,
               pending: seq<byte>, future: seq<byte>, escaping: bool, port: Port)
    returns (script': seq<Segment>, tail': seq<byte>, t1: byte, w': Where)
    requires WellFormed(script) && InStep(s, script, tail, t0, Inside(k, esc, part), pending + future, escaping, port)
    requires SafeCut(pending, escaping, port)
    ensures var r := Loop(s, pending, escaping, port);
      && WellFormed(script') && InStep(r.state, script', tail', t1, w', r.rest + future, escaping, port)
      && Outcomes(script, t0) == (if Reported(r.state) then [ReportOf(r.state)] else []) + Outcomes(script', t1)
      && (!Reported(r.state) ==> r.rest == [])
  {
    hide Loop, At;
    script', tail', t1 := script, tail, t0;
    if |pending| < |part| || (script[0].Aborted? && |pending| == |part|) {
      w' := ReadPart(s, script, tail, t0, k, esc, part, pending, future, escaping, port);
    } else if script[0].Segment? {
      ReadWhole(s, script, tail, t0, k, esc, part, pending, future, escaping, port);
      script', t1, w' := script[1..], 0, Between;
    } else {
      ReadAborted(s, script, tail, t0, k, esc, part, pending, future, escaping, port);
      script', t1, w' := script[1..], TotalAt(script[0].frame, script[0].cut, t0), Between;
    }
  }

  lemma LoopNothing(s: State, escaping: bool, port: Port)
    requires Wide(s)
    ensures Loop(s, [], escaping, port) == Read(s, [])
  {
  }

  // ---- Sessions ------------------------------------------------------------------------------------

  /** Bytes arrive and the application calls the parser, in any order. */
  datatype Event = Arrive(bytes: seq<byte>) | Poll

  function Arrived(events: seq<Event>): seq<byte> {
    if events == [] then []
    else (if events[0].Arrive? then events[0].bytes else []) + Arrived(events[1..])
  }

  datatype Log = Log(reports: seq<Report>, pending: seq<byte>, safe: bool)

  /** What the application sees, what is left unread, and whether every cut was safe. */
  function Session(s: State, pending: seq<byte>, events: seq<Event>, escaping: bool, port: Port): Log
    requires Wide(s)
    decreases |events|
  {
    if events == [] then Log([], pending, true)
    else if events[0].Arrive? then Session(s, pending + events[0].bytes, events[1..], escaping, port)
    else
      var r := ReadPacket(s, pending, escaping, port);
      var l := Session(r.state, r.rest, events[1..], escaping, port);
      Log((if Reported(r.state) then [ReportOf(r.state)] else []) + l.reports, l.pending,
          SafeCut(pending, escaping, port) && l.safe)
  }

  lemma {:induction false} SessionInStep(s: State, script: seq<Segment>, tail: seq<byte>, t0: byte, w: Where,
                                         pending: seq<byte>, events: seq<Event>, escaping: bool, port: Port)
    requires WellFormed(script)
    requires InStep(s, script, tail, t0, w, pending + Arrived(events), escaping, port)
    requires Wide(s) && Session(s, pending, events, escaping, port).safe
    ensures var l := Session(s, pending, events, escaping, port);
      l.reports <= Outcomes(script, t0) && (l.pending == [] ==> l.reports == Outcomes(script, t0))
    decreases |events|
  {
    hide *;
    SessionCases(s, pending, events, escaping, port);
    ArrivedCases(pending, events);
    if events == [] {
      if pending == [] { LineOver(s, script, tail, t0, w, escaping, port); }
    } else if events[0].Arrive? {
      SessionInStep(s, script, tail, t0, w, pending + events[0].bytes, events[1..], escaping, port);
    } else {
      var script', tail', t1, w' := ReadInStep(s, script, tail, t0, w, pending, Arrived(events), escaping, port);
      var r := ReadPacket(s, pending, escaping, port);
      SessionInStep(r.state, script', tail', t1, w', r.rest, events[1..], escaping, port);
      var l := Session(r.state, r.rest, events[1..], escaping, port);
      PrefixBehind(if Reported(r.state) then [ReportOf(r.state)] else [], l.reports, Outcomes(script', t1));
    }
  }

  lemma PrefixBehind(first: seq<Report>, a: seq<Report>, b: seq<Report>)
    requires a <= b
    ensures first + a <= first + b
  {
  }

  lemma ArrivedCases(pending: seq<byte>, events: seq<Event>)
    ensures events == [] ==> pending + Arrived(events) == pending
    ensures events != [] && events[0].Arrive? ==>
              pending + Arrived(events) == (pending + events[0].bytes) + Arrived(events[1..])
    ensures events != [] && !events[0].Arrive? ==> Arrived(events) == Arrived(events[1..])
  {
  }

  lemma SessionCases(s: State, pending: seq<byte>, events: seq<Event>, escaping: bool, port: Port)
    requires Wide(s)
    ensures events == [] ==> Session(s, pending, events, escaping, port) == Log([], pending, true)
    ensures events != [] && events[0].Arrive? ==>
              Session(s, pending, events, escaping, port)
              == Session(s, pending + events[0].bytes, events[1..], escaping, port)
    ensures events != [] && !events[0].Arrive? ==>
              var r := ReadPacket(s, pending, escaping, port);
              var l := Session(r.state, r.rest, events[1..], escaping, port);
              Session(s, pending, events, escaping, port)
              == Log((if Reported(r.state) then [ReportOf(r.state)] else []) + l.reports, l.pending,
                     SafeCut(pending, escaping, port) && l.safe)
  {
    hide ReadPacket, SafeCut, ReportOf, Reported;
  }

  /** With nothing left on the line no report is outstanding. */
  lemma LineOver(s: State, script: seq<Segment>, tail: seq<byte>, t0: byte, w: Where, escaping: bool, port: Port)
    requires WellFormed(script) && InStep(s, script, tail, t0, w, [], escaping, port)
    ensures Outcomes(script, t0) == []
  {
    if script != [] {
      if w.Inside? {
        SendAllNext(script[0].frame, w.k, escaping);
      }
    }
  }
}

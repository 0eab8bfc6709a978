/**
 * What a radio link may rely on: round trips, streams, damage, and the limits of the parser.
 */
module XBeeTheorems {
  import opened Bitwise
  import opened XBeeSpec
  import opened XBeeProof

  /** A parser as constructed, or after any packet or checksum failure, before the next byte. */
  predicate Fresh(s: State) {
    Wide(s) && Idle(Settled(s), 0)
  }

  lemma {:induction false} SumSplit(a: seq<byte>, b: seq<byte>)
    ensures Sum(a + b) == Sum(a) + Sum(b)
  {
    if b == [] {
      assert a + b == a;
    } else {
      assert (a + b)[..|a + b| - 1] == a + b[..|b| - 1];
      SumSplit(a, b[..|b| - 1]);
    }
  }

  lemma FrameParts(r: Request)
    requires |r.data| < 256
    ensures var d, n, body := FrameOf(r), |r.data|, [r.apiId, r.frameId] + r.data;
      var check := (0xFF - Sum(body)) % 256;
      && |d| == n + 6 && d[0] == START_BYTE && d[1] == (n + 2) / 256 && d[2] == (n + 2) % 256 && d[3] == r.apiId
      && d[API_ID_INDEX..] == body + [check] && d[4..|d| - 1] == [r.frameId] + r.data
  {
    var d, n := FrameOf(r), |r.data|;
    var body := [r.apiId, r.frameId] + r.data;
    var check := (0xFF - Sum(body)) % 256;
    assert d == [START_BYTE, (n + 2) / 256, (n + 2) % 256] + body + [check];
  }

  lemma SumOne(b: byte)
    ensures Sum([b]) == b
  {
    assert [b][..0] == [];
  }

  lemma Complement(n: nat)
    ensures (n + (0xFF - n) % 256) % 256 == 0xFF
  {
  }

  lemma ChecksumCompletes(body: seq<byte>, check: byte)
    requires (Sum(body) + check) % 256 == 0xFF
    ensures Sum(body + [check]) % 256 == 0xFF
  {
    hide *;
    SumSplit(body, [check]);
    SumOne(check);
  }

  /** The encoder's frame has the shape the parser goes by exactly up to 250 data bytes, and adds up. */
  lemma FrameShape(r: Request)
    requires |r.data| < 256
    ensures Shape(FrameOf(r)) <==> |r.data| <= 250
    ensures |r.data| <= 250 ==> Good(FrameOf(r), 0)
    ensures |r.data| <= 250 ==> Outcome(FrameOf(r), 0) == Packet(r.apiId, [r.frameId] + r.data)
  {
    FrameParts(r);
    var body := [r.apiId, r.frameId] + r.data;
    Complement(Sum(body));
    ChecksumCompletes(body, (0xFF - Sum(body)) % 256);
    hide FrameOf, Sum;
  }

  predicate Small(requests: seq<Request>) {
    forall i | 0 <= i < |requests| :: |requests[i].data| <= 250
  }

  predicate AllQuiet(noises: seq<seq<byte>>) {
    forall i | 0 <= i < |noises| :: Quiet(noises[i])
  }

  /** The line when each request is sent after some noise. */
  function ScriptOf(requests: seq<Request>, noises: seq<seq<byte>>): (script: seq<Segment>)
    requires Small(requests) && AllQuiet(noises) && |noises| == |requests|
    ensures WellFormed(script) && Unbroken(script)
  {
    if requests == [] then []
    else
      FrameShape(requests[0]);
      [Segment(noises[0], FrameOf(requests[0]))] + ScriptOf(requests[1..], noises[1..])
  }

  function Packets(requests: seq<Request>): seq<Report> {
    if requests == [] then []
    else [Packet(requests[0].apiId, [requests[0].frameId] + requests[0].data)] + Packets(requests[1..])
  }

  lemma {:induction false} ScriptOutcomes(requests: seq<Request>, noises: seq<seq<byte>>)
    requires Small(requests) && AllQuiet(noises) && |noises| == |requests|
    ensures Outcomes(ScriptOf(requests, noises), 0) == Packets(requests)
  {
    if requests != [] {
      FrameShape(requests[0]);
      ScriptOutcomes(requests[1..], noises[1..]);
    }
  }

  /** A session from the start of a line. */
  lemma SessionStart(s: State, script: seq<Segment>, tail: seq<byte>, events: seq<Event>, escaping: bool, port: Port)
    requires Fresh(s) && WellFormed(script) && Quiet(tail) && (escaping || Unbroken(script))
    requires Arrived(events) == Line(script, tail, escaping) && Session(s, [], events, escaping, port).safe
    ensures var l := Session(s, [], events, escaping, port);
      l.reports <= Outcomes(script, 0) && (l.pending == [] ==> l.reports == Outcomes(script, 0))
  {
    assert [] + Arrived(events) == Arrived(events);
    hide Line, Session, Outcomes;
    SessionInStep(s, script, tail, 0, Between, [], events, escaping, port);
  }

  /** Any number of requests, any noise without a start byte, any way of cutting the line into arrivals
      and of mixing arrivals with calls: exactly the packets sent are reported, in order. */
  lemma StreamDecoded(s: State, requests: seq<Request>, noises: seq<seq<byte>>, tail: seq<byte>,
                      events: seq<Event>, escaping: bool, port: Port)
    requires Fresh(s) && Small(requests) && AllQuiet(noises) && |noises| == |requests| && Quiet(tail)
    requires Arrived(events) == Line(ScriptOf(requests, noises), tail, escaping)
    requires Session(s, [], events, escaping, port).safe
    ensures var l := Session(s, [], events, escaping, port);
      l.reports <= Packets(requests) && (l.pending == [] ==> l.reports == Packets(requests))
  {
    hide *;
    ScriptOutcomes(requests, noises);
    SessionStart(s, ScriptOf(requests, noises), tail, events, escaping, port);
  }

  lemma {:induction false} PolledIsSafe(s: State, pending: seq<byte>, events: seq<Event>, escaping: bool)
    requires Wide(s)
    ensures Session(s, pending, events, escaping, Polled).safe
    decreases |events|
  {
    hide ReadPacket, ReportOf, Reported;
    if events != [] {
      if events[0].Arrive? {
        PolledIsSafe(s, pending + events[0].bytes, events[1..], escaping);
      } else {
        var r := ReadPacket(s, pending, escaping, Polled);
        PolledIsSafe(r.state, r.rest, events[1..], escaping);
      }
    }
  }

  /** One request over a port that knows whether bytes wait, cut anywhere, even inside an escape pair. */
  lemma RoundTrip(s: State, r: Request, events: seq<Event>, escaping: bool)
    requires Fresh(s) && |r.data| <= 250
    requires Arrived(events) == Encode(FrameOf(r), escaping)
    ensures var l := Session(s, [], events, escaping, Polled);
      l.pending == [] ==> l.reports == [Packet(r.apiId, [r.frameId] + r.data)]
  {
    FrameShape(r);
    var script := [Segment([], FrameOf(r))];
    assert Line(script[1..], [], escaping) == [];
    assert Line(script, [], escaping) == Encode(FrameOf(r), escaping);
    assert Outcomes(script[1..], 0) == [];
    hide Line, Session;
    PolledIsSafe(s, [], events, escaping);
    SessionStart(s, script, [], events, escaping, Polled);
  }

  // ---- Damage --------------------------------------------------------------------------------------

  lemma {:induction false} SumChange(a: seq<byte>, b: seq<byte>, i: nat)
    requires |a| == |b| && i < |a| && (forall j | 0 <= j < |a| && j != i :: a[j] == b[j])
    ensures Sum(b) == Sum(a) + b[i] - a[i]
  {
    var n := |a| - 1;
    if i == n {
      assert a[..n] == b[..n];
    } else {
      SumChange(a[..n], b[..n], i);
    }
  }

  /** One damaged byte after the length: never a packet, always a checksum failure. */
  lemma DamagedByteRejected(d: seq<byte>, e: seq<byte>, i: nat)
    requires Shape(d) && Good(d, 0) && |e| == |d| && API_ID_INDEX <= i < |d| && e[i] != d[i]
    requires forall j | 0 <= j < |d| && j != i :: e[j] == d[j]
    ensures Shape(e) && Outcome(e, 0) == Failure(CHECKSUM_FAILURE)
  {
    var a, b := d[API_ID_INDEX..], e[API_ID_INDEX..];
    assert forall j | 0 <= j < |a| && j != i - API_ID_INDEX :: a[j] == d[j + API_ID_INDEX] && b[j] == a[j];
    SumChange(a, b, i - API_ID_INDEX);
    ModApart(Sum(a), (e[i] as int) - d[i]);
  }

  lemma ModApart(n: nat, delta: int)
    requires n % 256 == 0xFF && delta != 0 && -256 < delta < 256 && n + delta >= 0
    ensures (n + delta) % 256 != 0xFF
  {
  }

  // ---- A port that is always available -------------------------------------------------------------

  /** Every chunk is read as soon as it arrives. */
  function Turns(chunks: seq<seq<byte>>): seq<Event> {
    if chunks == [] then [] else [Arrive(chunks[0]), Poll] + Turns(chunks[1..])
  }

  function Concat(chunks: seq<seq<byte>>): seq<byte> {
    if chunks == [] then [] else chunks[0] + Concat(chunks[1..])
  }

  predicate NoneEndsInEscape(chunks: seq<seq<byte>>) {
    forall i | 0 <= i < |chunks| && chunks[i] != [] :: chunks[i][|chunks[i]| - 1] != ESCAPE
  }

  lemma OneTurn(s: State, chunks: seq<seq<byte>>)
    requires Wide(s) && chunks != []
    ensures var r := ReadPacket(s, chunks[0], true, Connected);
      Session(s, [], Turns(chunks), true, Connected).reports ==
      (if Reported(r.state) then [ReportOf(r.state)] else [])
      + Session(r.state, r.rest, Turns(chunks[1..]), true, Connected).reports
  {
    hide ReadPacket, ReportOf, Reported;
    var events := Turns(chunks);
    assert [] + chunks[0] == chunks[0];
    assert events[1..][0] == Poll && events[1..][1..] == Turns(chunks[1..]);
    assert Session(s, [], events, true, Connected) == Session(s, chunks[0], events[1..], true, Connected);
  }

  lemma {:induction false} QuietTurns(s: State, chunks: seq<seq<byte>>)
    requires Wide(s) && Concat(chunks) == []
    ensures Session(s, [], Turns(chunks), true, Connected).reports == []
    ensures NoneEndsInEscape(chunks)
    decreases |chunks|
  {
    if chunks != [] {
      OneTurn(s, chunks);
      QuietTurns(ReadPacket(s, [], true, Connected).state, chunks[1..]);
    }
  }

  lemma NoneEndsCons(chunks: seq<seq<byte>>)
    requires chunks != []
    ensures NoneEndsInEscape(chunks) <==>
            NoneEndsInEscape(chunks[..1]) && NoneEndsInEscape(chunks[1..])
  {
    assert forall i | 0 < i < |chunks| :: chunks[i] == chunks[1..][i - 1];
  }

  /** A read that stops inside the frame: a timeout right behind an escape byte, progress elsewhere. */
  lemma TurnCut(s: State, d: seq<byte>, k: nat, m: nat) returns (k': nat)
    requires Shape(d) && 0 < k < |d| && At(s, d, k, false, 0) && m < |SendAll(d[k..], true)|
    ensures var rem := SendAll(d[k..], true); var r := ReadPacket(s, rem[..m], true, Connected);
      && r.rest == []
      && if m > 0 && rem[m - 1] == ESCAPE then Reported(r.state) && ReportOf(r.state) == Failure(AT_NO_RESPONSE)
         else !Reported(r.state) && 0 < k' < |d| && At(r.state, d, k', false, 0) && SendAll(d[k'..], true) == rem[m..]
  {
    hide Loop, Accept;
    var esc';
    k', esc' := PartFrom(s, d, k, false, 0, m, true, Connected);
  }

  lemma TurnWhole(s: State, d: seq<byte>, k: nat)
    requires Shape(d) && 0 < k < |d| && At(s, d, k, false, 0)
    ensures var r := ReadPacket(s, SendAll(d[k..], true), true, Connected);
      r.rest == [] && Reported(r.state) && ReportOf(r.state) == Outcome(d, 0)
  {
    hide Loop, Accept, Outcome;
    assert SendAll(d[k..], true) + [] == SendAll(d[k..], true);
    WholeFrom(s, d, k, false, 0, [], true, Connected);
    DoneReports(Loop(s, SendAll(d[k..], true), true, Connected).state, d);
  }

  lemma {:induction false} TurnsInside(s: State, d: seq<byte>, k: nat, chunks: seq<seq<byte>>)
    requires Shape(d) && 0 < k < |d| && At(s, d, k, false, 0)
    requires Concat(chunks) == SendAll(d[k..], true)
    ensures Session(s, [], Turns(chunks), true, Connected).reports == [Outcome(d, 0)] <==> NoneEndsInEscape(chunks)
    decreases |chunks|
  {
    var rem := SendAll(d[k..], true);
    NoControlBytes(d[k..]);
    assert Wide(s) && rem != [] && rem[|rem| - 1] != ESCAPE;
    hide ReadPacket, Outcome, At, Reported, ReportOf, SendAll, Session, NoneEndsInEscape, Turns, Wide, Shape;
    FirstChunk(chunks, rem);
    OneTurn(s, chunks);
    var c, rest := chunks[0], chunks[1..];
    if |c| < |rem| {
      var k' := TurnCut(s, d, k, |c|);
      OutcomeIsNotTimeout(d);
      if c == [] || c[|c| - 1] != ESCAPE {
        TurnsInside(ReadPacket(s, c, true, Connected).state, d, k', rest);
      } else {
        assert rem[|c| - 1] == c[|c| - 1];
        assert Session(s, [], Turns(chunks), true, Connected).reports[0] == Failure(AT_NO_RESPONSE);
      }
    } else {
      assert c == rem && Concat(rest) == [];
      TurnWhole(s, d, k);
      QuietTurns(ReadPacket(s, c, true, Connected).state, rest);
    }
  }

  lemma FirstChunk(chunks: seq<seq<byte>>, rem: seq<byte>)
    requires Concat(chunks) == rem != []
    ensures chunks != []
    ensures var c := chunks[0];
      && |c| <= |rem| && c == rem[..|c|] && Concat(chunks[1..]) == rem[|c|..]
      && (NoneEndsInEscape(chunks) <==> (c == [] || c[|c| - 1] != ESCAPE) && NoneEndsInEscape(chunks[1..]))
  {
    var c := chunks[0];
    NoneEndsCons(chunks);
    assert chunks[..1][0] == c;
    assert c == (c + Concat(chunks[1..]))[..|c|];
    assert Concat(chunks[1..]) == (c + Concat(chunks[1..]))[|c|..];
  }

  lemma OutcomeIsNotTimeout(d: seq<byte>)
    requires Shape(d)
    ensures Outcome(d, 0) != Failure(AT_NO_RESPONSE)
  {
  }

  lemma DoneReports(s: State, d: seq<byte>)
    requires Shape(d) && Done(s, d, 0)
    ensures Reported(s) && ReportOf(s) == Outcome(d, 0)
  {
  }

  /** On a port whose available() only says that it is open, a frame that is read as it arrives comes
      through exactly if no read ends right behind an escape byte. */
  lemma {:induction false} ConnectedExactly(s: State, d: seq<byte>, chunks: seq<seq<byte>>)
    requires Fresh(s) && !Reported(s) && Shape(d) && Concat(chunks) == Encode(d, true)
    ensures Session(s, [], Turns(chunks), true, Connected).reports == [Outcome(d, 0)] <==> NoneEndsInEscape(chunks)
    decreases |chunks|
  {
    hide Loop, Accept, Outcome;
    var c, rest := chunks[0], chunks[1..];
    OneTurn(s, chunks);
    NoneEndsCons(chunks);
    if c == [] {
      LoopNothing(s, true, Connected);
      ConnectedExactly(s, d, rest);
    } else {
      assert c[0] == Concat(chunks)[0] == START_BYTE;
      var c' := c[1..];
      assert c == [d[0]] + c';
      TakeStart(s, d, c', 0, true, Connected);
      var chunks' := [c'] + rest;
      OneTurn(s.(pos := 1), chunks');
      NoneEndsCons(chunks');
      assert Concat(chunks') == c' + Concat(rest) == (c + Concat(rest))[1..] == SendAll(d[1..], true);
      assert chunks'[..1] == [c'] && chunks[..1] == [c] && chunks'[1..] == rest;
      assert NoneEndsInEscape([c']) <==> NoneEndsInEscape([c]) by {
        assert c' != [] ==> c'[|c'| - 1] == c[|c| - 1];
        assert [c'][0] == c' && [c][0] == c;
      }
      TurnsInside(s.(pos := 1), d, 1, chunks');
    }
  }

  // ---- How long a request may be -------------------------------------------------------------------

  /** Bytes k to limit of a frame of any length are stored and the loop goes on. */
  lemma {:induction false} LoopTo(s: State, d: seq<byte>, k: nat, limit: nat, escaping: bool, port: Port)
    returns (t: State)
    requires d != [] && d[0] == START_BYTE && 0 < k <= limit < |d| && At(s, d, k, false, 0)
    requires forall j | k <= j < limit :: Passes(d, j)
    ensures At(t, d, limit, false, 0)
    ensures Loop(s, SendAll(d[k..], escaping), escaping, port) == Loop(t, SendAll(d[limit..], escaping), escaping, port)
    decreases limit - k
  {
    hide Accept, Loop;
    t := s;
    if k < limit {
      SendAllNext(d, k, escaping);
      LoopOne(s, d, k, 0, SendAll(d[k..], escaping), escaping, port);
      AcceptNext(s, d, k, 0);
      t := LoopTo(Accept(s, d[k]), d, k + 1, limit, escaping, port);
    }
  }

  /** The byte on which a frame with more than 250 data bytes is given up or misread. */
  function Limit(n: nat): nat {
    if n == 255 then 4 else 256
  }

  lemma LimitReached(r: Request, s: State)
    requires 250 < |r.data| < 256 && At(s, FrameOf(r), Limit(|r.data|), false, 0)
    ensures var t := Accept(s, FrameOf(r)[Limit(|r.data|)]);
      Reported(t) && ReportOf(t) != Packet(r.apiId, [r.frameId] + r.data)
  {
  }

  lemma PassesUpTo(r: Request, j: nat)
    requires 250 < |r.data| < 256 && j < Limit(|r.data|)
    ensures Passes(FrameOf(r), j)
  {
  }

  /** A request comes back as itself exactly if it has at most 250 bytes of frame data. */
  lemma RoundTripExactly(s: State, r: Request, escaping: bool)
    requires Fresh(s) && |r.data| < 256
    ensures var t := ReadPacket(s, Encode(FrameOf(r), escaping), escaping, Polled).state;
      Reported(t) && (ReportOf(t) == Packet(r.apiId, [r.frameId] + r.data) <==> |r.data| <= 250)
  {
    hide Accept, Loop, Limit, At;
    var d := FrameOf(r);
    var u := if Reported(s) then Reset(s) else s;
    FrameShape(r);
    assert Idle(u, 0);
    Started(u, d, SendAll(d[1..], escaping), escaping);
    if |r.data| <= 250 {
      TurnOne(u.(pos := 1), d, escaping);
    } else {
      LimitInside(r);
      var k := Limit(|r.data|);
      forall j | 1 <= j < k
        ensures Passes(d, j)
      {
        PassesUpTo(r, j);
      }
      var t := LoopTo(u.(pos := 1), d, 1, k, escaping, Polled);
      SendAllNext(d, k, escaping);
      LoopOne(t, d, k, 0, SendAll(d[k..], escaping), escaping, Polled);
      LimitReached(r, t);
    }
  }

  lemma LimitInside(r: Request)
    requires 250 < |r.data| < 256
    ensures 1 <= Limit(|r.data|) < |FrameOf(r)|
  {
  }

  lemma Started(s: State, d: seq<byte>, rest: seq<byte>, escaping: bool)
    requires Idle(s, 0) && !Reported(s) && d != [] && d[0] == START_BYTE
    ensures At(s.(pos := 1), d, 1, false, 0)
    ensures Loop(s, [d[0]] + rest, escaping, Polled) == Loop(s.(pos := 1), rest, escaping, Polled)
  {
    assert ([d[0]] + rest)[1..] == rest;
  }

  lemma TurnOne(s: State, d: seq<byte>, escaping: bool)
    requires Shape(d) && At(s, d, 1, false, 0)
    ensures var t := Loop(s, SendAll(d[1..], escaping), escaping, Polled).state;
      Reported(t) && ReportOf(t) == Outcome(d, 0)
  {
    hide Loop, Accept;
    assert SendAll(d[1..], escaping) + [] == SendAll(d[1..], escaping);
    WholeFrom(s, d, 1, false, 0, [], escaping, Polled);
  }
}

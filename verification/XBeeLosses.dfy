/**
 * How frames are lost: a read that ends right behind an escape byte, on a port that cannot tell whether bytes
 * are waiting, is a time-out; a frame that is given up for another loses both. Either leaves a checksum total
 * behind, which no reset clears.
 */
module XBeeLosses {
  import opened Bitwise
  import opened XBeeSpec
  import opened XBeeProof
  import opened XBeeTheorems

  // ---- What is sent --------------------------------------------------------------------------------

  /** A frame after some noise, of which the first `upto` bytes are sent before it is given up for the next. */
  datatype Attempt = Attempt(noise: seq<byte>, frame: seq<byte>, upto: nat)

  predicate GivenUp(a: Attempt) {
    a.upto < |a.frame|
  }

  predicate Legal(a: Attempt) {
    Quiet(a.noise) && Shape(a.frame) && 0 < a.upto <= |a.frame|
  }

  /** Behind a frame that is given up the next one starts at once. */
  predicate PlausibleAt(sent: seq<Attempt>, i: nat)
    requires i < |sent|
  {
    Legal(sent[i]) && (GivenUp(sent[i]) ==> i + 1 < |sent| && sent[i + 1].noise == [])
  }

  predicate Plausible(sent: seq<Attempt>) {
    forall i | 0 <= i < |sent| :: PlausibleAt(sent, i)
  }

  predicate NoneGivenUp(sent: seq<Attempt>) {
    forall i | 0 <= i < |sent| :: !GivenUp(sent[i])
  }

  lemma TailPlausible(sent: seq<Attempt>, n: nat)
    requires Plausible(sent) && n <= |sent|
    ensures Plausible(sent[n..]) && (NoneGivenUp(sent) ==> NoneGivenUp(sent[n..]))
  {
    hide Legal;
    var rest := sent[n..];
    forall i | 0 <= i < |rest|
      ensures PlausibleAt(rest, i) && (NoneGivenUp(sent) ==> !GivenUp(rest[i]))
    {
      assert PlausibleAt(sent, n + i) && rest[i] == sent[n + i];
    }
  }

  /** What travels on the line. */
  function OnLine(sent: seq<Attempt>, tail: seq<byte>, escaping: bool): seq<byte>
    requires Plausible(sent)
  {
    if sent == [] then tail
    else
      TailPlausible(sent, 1);
      assert PlausibleAt(sent, 0);
      sent[0].noise + (Encode(sent[0].frame[..sent[0].upto], escaping) + OnLine(sent[1..], tail, escaping))
  }

  datatype Rest = Rest(sent: seq<Attempt>, tail: seq<byte>)

  /** Noise in front of the next frame, or of the tail. */
  function Behind(noise: seq<byte>, sent: seq<Attempt>, tail: seq<byte>): Rest {
    if sent == [] then Rest([], noise + tail)
    else Rest([sent[0].(noise := noise + sent[0].noise)] + sent[1..], tail)
  }

  /** What is noise of a frame whose start byte was taken for something else. */
  function Missed(a: Attempt): seq<byte>
    requires a.upto <= |a.frame| && a.upto > 0
  {
    SendAll(a.frame[..a.upto][1..], true)
  }

  datatype Reading = Reading(script: seq<Segment>, tail: seq<byte>)

  /** How a parser between frames takes the line, as long as no read times out: the frame for which another was given
      up is missed, and what is sent of it is noise. */
  function Taken(sent: seq<Attempt>, tail: seq<byte>): Reading
    requires Plausible(sent)
    decreases |sent|
  {
    if sent == [] then Reading([], tail)
    else
      var a := sent[0];
      TailPlausible(sent, 1);
      assert PlausibleAt(sent, 0);
      if !GivenUp(a) then
        var r := Taken(sent[1..], tail);
        Reading([Segment(a.noise, a.frame)] + r.script, r.tail)
      else
        assert PlausibleAt(sent, 0) && PlausibleAt(sent, 1);
        var next := Behind(Missed(sent[1]), sent[2..], tail);
        MissedIsQuiet(sent[1]);
        TailPlausible(sent, 2);
        BehindPlausible(Missed(sent[1]), sent[2..], tail);
        var r := Taken(next.sent, next.tail);
        Reading([Aborted(a.noise, a.frame, a.upto)] + r.script, r.tail)
  }

  lemma QuietJoin(a: seq<byte>, b: seq<byte>)
    requires Quiet(a) && Quiet(b)
    ensures Quiet(a + b)
  {
  }

  lemma MissedIsQuiet(a: Attempt)
    requires 0 < a.upto <= |a.frame|
    ensures Quiet(Missed(a))
  {
    NoControlBytes(a.frame[..a.upto][1..]);
    hide SendAll;
  }

  lemma BehindPlausible(noise: seq<byte>, sent: seq<Attempt>, tail: seq<byte>)
    requires Quiet(noise) && Plausible(sent)
    ensures var next := Behind(noise, sent, tail);
      && Plausible(next.sent) && |next.sent| == |sent| && (Quiet(tail) ==> Quiet(next.tail))
      && (NoneGivenUp(sent) ==> NoneGivenUp(next.sent))
  {
    if sent == [] {
      if Quiet(tail) { QuietJoin(noise, tail); }
    } else {
      assert PlausibleAt(sent, 0);
      QuietJoin(noise, sent[0].noise);
      var next := Behind(noise, sent, tail).sent;
      hide Quiet, Shape;
      forall i | 0 <= i < |next|
        ensures PlausibleAt(next, i) && (NoneGivenUp(sent) ==> !GivenUp(next[i]))
      {
        assert PlausibleAt(sent, i) && next[i].frame == sent[i].frame && next[i].upto == sent[i].upto;
        assert i > 0 ==> next[i] == sent[i];
      }
    }
  }

  lemma NoiseJoins(a: seq<byte>, b: seq<byte>, c: seq<byte>)
    ensures (a + b) + c == a + (b + c)
  {
  }

  lemma BehindLine(noise: seq<byte>, sent: seq<Attempt>, tail: seq<byte>, escaping: bool)
    requires Plausible(sent) && Plausible(Behind(noise, sent, tail).sent)
    ensures var next := Behind(noise, sent, tail);
      OnLine(next.sent, next.tail, escaping) == noise + OnLine(sent, tail, escaping)
  {
    if sent != [] {
      var next := Behind(noise, sent, tail);
      TailPlausible(sent, 1);
      assert next.sent[1..] == sent[1..] && PlausibleAt(sent, 0);
      var rest := Encode(sent[0].frame[..sent[0].upto], escaping) + OnLine(sent[1..], tail, escaping);
      hide Encode, Legal;
      NoiseJoins(noise, sent[0].noise, rest);
    }
  }

  /** The bytes on the line are those of the script. */
  lemma {:induction false} TakenLine(sent: seq<Attempt>, tail: seq<byte>, escaping: bool)
    requires Plausible(sent) && Quiet(tail) && (escaping || NoneGivenUp(sent))
    ensures var r := Taken(sent, tail);
      && WellFormed(r.script) && Quiet(r.tail) && (NoneGivenUp(sent) ==> Unbroken(r.script))
      && Line(r.script, r.tail, escaping) == OnLine(sent, tail, escaping)
    decreases |sent|
  {
    if sent != [] {
      var a := sent[0];
      TailPlausible(sent, 1);
      assert PlausibleAt(sent, 0);
      if !GivenUp(a) {
        TakenLine(sent[1..], tail, escaping);
        assert a.frame[..a.upto] == a.frame;
        TakenFirst(Segment(a.noise, a.frame), Taken(sent[1..], tail).script);
      } else {
        assert PlausibleAt(sent, 0) && PlausibleAt(sent, 1);
        TailPlausible(sent, 2);
        var noise := Missed(sent[1]);
        MissedIsQuiet(sent[1]);
        BehindPlausible(noise, sent[2..], tail);
        BehindLine(noise, sent[2..], tail, true);
        var next := Behind(noise, sent[2..], tail);
        TakenLine(next.sent, next.tail, true);
        TakenFirst(Aborted(a.noise, a.frame, a.upto), Taken(next.sent, next.tail).script);
        hide Encode, SendAll, Shape, Quiet;
        MissedLine(sent, tail);
      }
    }
  }

  lemma TakenFirst(g: Segment, rest: seq<Segment>)
    requires Sound(g) && WellFormed(rest)
    ensures WellFormed([g] + rest) && ([g] + rest)[0] == g && ([g] + rest)[1..] == rest
    ensures g.Segment? && Unbroken(rest) ==> Unbroken([g] + rest)
  {
    hide Sound;
  }

  /** The frame for which another is given up: its start byte, and noise. */
  lemma MissedLine(sent: seq<Attempt>, tail: seq<byte>)
    requires Plausible(sent) && |sent| > 1 && GivenUp(sent[0]) && Plausible(sent[1..]) && Plausible(sent[2..])
    requires 0 < sent[1].upto <= |sent[1].frame|
    ensures OnLine(sent[1..], tail, true) == [START_BYTE] + (Missed(sent[1]) + OnLine(sent[2..], tail, true))
  {
    var b := sent[1];
    assert PlausibleAt(sent, 0) && PlausibleAt(sent, 1) && sent[1..][0] == b && sent[1..][1..] == sent[2..];
    assert b.frame[..b.upto][0] == START_BYTE;
    hide SendAll;
    NoiseJoins([START_BYTE], Missed(b), OnLine(sent[2..], tail, true));
  }

  // ---- What is reported ----------------------------------------------------------------------------

  /** What is sent, without the noise. */
  datatype Try = Try(frame: seq<byte>, upto: nat)

  function Tries(sent: seq<Attempt>): seq<Try> {
    seq(|sent|, i requires 0 <= i < |sent| => Try(sent[i].frame, sent[i].upto))
  }

  predicate AllShaped(tries: seq<Try>) {
    forall i | 0 <= i < |tries| :: Shape(tries[i].frame) && 0 < tries[i].upto <= |tries[i].frame|
  }

  /** A read that ends behind the escape byte of byte k loses the frame and leaves its total of k bytes. */
  predicate TimesOut(t: Try, k: nat, t0: byte, t1: byte) {
    0 < k < t.upto <= |t.frame| && Special(t.frame[k]) && t1 == TotalAt(t.frame, k, t0)
  }

  /** What one report says of the next frame, with which total the one after it starts, and how many are spent on it:
      a frame is what it is; or it is given up, and the next is missed; or the parser times out within it. */
  ghost predicate Tells(r: Report, tries: seq<Try>, t0: byte, t1: byte, spent: nat)
    requires AllShaped(tries)
  {
    && tries != [] && spent <= |tries|
    && var t := tries[0];
    || (t.upto == |t.frame| && r == Outcome(t.frame, t0) && t1 == 0 && spent == 1)
    || (t.upto < |t.frame| && r == Failure(UNEXPECTED_START_BYTE) && t1 == TotalAt(t.frame, t.upto, t0) && spent == 2)
    || (r == Failure(AT_NO_RESPONSE) && (exists k: nat :: TimesOut(t, k, t0, t1)) && spent == 1)
  }

  /** The reports account for the frames in order; for all of them, if nothing is left to be read. */
  ghost predicate Explained(reports: seq<Report>, tries: seq<Try>, t0: byte, over: bool)
    requires AllShaped(tries)
    decreases |reports|
  {
    if reports == [] then over ==> tries == []
    else exists t1: byte, spent: nat ::
      Tells(reports[0], tries, t0, t1, spent) && Explained(reports[1..], tries[spent..], t1, over)
  }

  lemma TriesShaped(sent: seq<Attempt>)
    requires Plausible(sent)
    ensures AllShaped(Tries(sent)) && |Tries(sent)| == |sent|
  {
    assert forall i | 0 <= i < |sent| :: PlausibleAt(sent, i) && Legal(sent[i]);
    hide Shape, Quiet;
  }

  lemma TriesOf(sent: seq<Attempt>, n: nat)
    requires n <= |sent|
    ensures Tries(sent[n..]) == Tries(sent)[n..]
  {
  }

  lemma TriesBehind(noise: seq<byte>, sent: seq<Attempt>, tail: seq<byte>)
    ensures Tries(Behind(noise, sent, tail).sent) == Tries(sent)
  {
    var next := Behind(noise, sent, tail).sent;
    assert forall i | 0 < i < |sent| :: next[i] == sent[i];
  }

  // ---- One call ------------------------------------------------------------------------------------

  /** The rest of an escaped frame holds no start byte. */
  lemma RestIsQuiet(d: seq<byte>, k: nat, esc: bool)
    requires 0 < k < |d| && (esc ==> Special(d[k]))
    ensures Quiet(Remaining(d, k, esc, true))
  {
    NoControlBytes(d[k..]);
    NoControlBytes(d[k + 1..]);
    if esc { FlipSpecial(d[k]); }
    hide SendAll, Flip;
  }

  /** A read inside a frame that ends right behind an escape byte, on a port that is always available. */
  lemma ReadTimesOut(s: State, d: seq<byte>, k: nat, esc: bool, t0: byte, part: seq<byte>, cut: nat, m: nat)
    returns (k': nat)
    requires Shape(d) && 0 < k < |d| && At(s, d, k, esc, t0) && !esc && cut <= |d|
    requires InFront(part, d, k, esc, cut, true) && 0 < m <= |part| && part[m - 1] == ESCAPE
    requires m < |part| || cut < |d|
    ensures 0 < k' < cut && Special(d[k']) && InFront(part[m..], d, k', true, cut, true) && Quiet(part[m..])
    ensures var r := Loop(s, part[..m], true, Connected);
      && r.rest == [] && Reported(r.state) && ReportOf(r.state) == Failure(AT_NO_RESPONSE)
      && Wide(r.state) && Idle(Settled(r.state), TotalAt(d, k', t0))
  {
    if cut < |d| { SendAllNext(d, cut, true); }
    hide Accept, Loop, SendAll, Quiet, Flip;
    var rem := Remaining(d, k, esc, true);
    assert rem[..m] == part[..m] && rem[m..] == part[m..] + SendAll(d[cut..], true) && rem[m - 1] == part[m - 1];
    var esc';
    k', esc' := PartFrom(s, d, k, esc, t0, m, true, Connected);
    RestIsQuiet(d, k', true);
    QuietPart(part[m..], SendAll(d[cut..], true));
    InFrontOfCut(d, k', cut, part[m..]);
  }

  lemma QuietPart(a: seq<byte>, b: seq<byte>)
    requires Quiet(a + b)
    ensures Quiet(a)
  {
    assert forall i | 0 <= i < |a| :: a[i] == (a + b)[i];
  }

  lemma InFrontOfCut(d: seq<byte>, k: nat, cut: nat, part: seq<byte>)
    requires 0 < k < |d| && Special(d[k]) && cut <= |d|
    requires Remaining(d, k, true, true) == part + SendAll(d[cut..], true)
    ensures k < cut
  {
    SendAllNext(d, k, true);
    if cut <= k { SendAllSplit(d, cut, k, true); }
  }

  /** How the parser takes the first frame, and what it makes of the rest. */
  lemma TakenCases(sent: seq<Attempt>, tail: seq<byte>)
    requires Plausible(sent)
    ensures sent == [] ==> Taken(sent, tail) == Reading([], tail)
    ensures sent != [] ==> Legal(sent[0]) && Plausible(sent[1..])
    ensures sent != [] && !GivenUp(sent[0]) ==>
              var r := Taken(sent[1..], tail);
              Taken(sent, tail) == Reading([Segment(sent[0].noise, sent[0].frame)] + r.script, r.tail)
    ensures sent != [] && GivenUp(sent[0]) ==>
              && |sent| > 1 && Legal(sent[1]) && Plausible(sent[2..])
              && var next := Behind(Missed(sent[1]), sent[2..], tail);
              && Plausible(next.sent) && (Quiet(tail) ==> Quiet(next.tail))
              && var r := Taken(next.sent, next.tail);
              Taken(sent, tail) == Reading([Aborted(sent[0].noise, sent[0].frame, sent[0].upto)] + r.script, r.tail)
  {
    if sent != [] {
      assert PlausibleAt(sent, 0);
      TailPlausible(sent, 1);
      if GivenUp(sent[0]) {
        assert PlausibleAt(sent, 1);
        TailPlausible(sent, 2);
        MissedIsQuiet(sent[1]);
        BehindPlausible(Missed(sent[1]), sent[2..], tail);
      }
    }
    hide Legal, Missed, Behind, Quiet;
  }

  lemma FirstOf(g: Segment, rest: seq<Segment>)
    ensures ([g] + rest)[0] == g && ([g] + rest)[1..] == rest
  {
  }

  /** What follows the first frame on the line. */
  lemma RestOfLine(sent: seq<Attempt>, tail: seq<byte>, escaping: bool)
    requires Plausible(sent) && sent != [] && Quiet(tail) && (escaping || NoneGivenUp(sent))
    ensures var r := Taken(sent, tail);
      && Plausible(sent[1..]) && r.script != []
      && r.script[0].frame == sent[0].frame && r.script[0].noise == sent[0].noise
      && WellFormed(r.script[1..])
      && (!GivenUp(sent[0]) ==>
            r.script[0].Segment? && OnLine(sent[1..], tail, escaping) == Line(r.script[1..], r.tail, escaping))
      && (GivenUp(sent[0]) ==>
            && escaping && r.script[0].Aborted? && r.script[0].cut == sent[0].upto
            && OnLine(sent[1..], tail, escaping) == [START_BYTE] + Line(r.script[1..], r.tail, escaping))
  {
    NeedsEscaping(sent, escaping);
    hide *;
    TakenCases(sent, tail);
    TailPlausible(sent, 1);
    if !GivenUp(sent[0]) {
      TakenLine(sent[1..], tail, escaping);
      FirstOf(Segment(sent[0].noise, sent[0].frame), Taken(sent[1..], tail).script);
    } else {
      var noise := Missed(sent[1]);
      var next := Behind(noise, sent[2..], tail);
      BehindLine(noise, sent[2..], tail, true);
      TakenLine(next.sent, next.tail, true);
      MissedLine(sent, tail);
      FirstOf(Aborted(sent[0].noise, sent[0].frame, sent[0].upto), Taken(next.sent, next.tail).script);
    }
  }

  lemma NeedsEscaping(sent: seq<Attempt>, escaping: bool)
    requires sent != [] && (escaping || NoneGivenUp(sent))
    ensures GivenUp(sent[0]) ==> escaping
    ensures forall a: Attempt :: Legal(a) ==> 0 < a.upto <= |a.frame|
  {
  }

  /** The parser is in step with the line, taken as it takes it from here on. */
  ghost predicate OnTrack(s: State, sent: seq<Attempt>, tail: seq<byte>, t0: byte, w: Where, line: seq<byte>,
                          escaping: bool, port: Port)
  {
    && Plausible(sent) && Quiet(tail) && (escaping || NoneGivenUp(sent))
    && var r := Taken(sent, tail); WellFormed(r.script) && InStep(s, r.script, r.tail, t0, w, line, escaping, port)
  }

  /** Between frames that is so whenever the line is what is still to come. */
  lemma BetweenFrames(s: State, sent: seq<Attempt>, tail: seq<byte>, t0: byte, line: seq<byte>,
                      escaping: bool, port: Port)
    requires Plausible(sent) && Quiet(tail) && (escaping || NoneGivenUp(sent))
    requires Wide(s) && Idle(Settled(s), t0) && line == OnLine(sent, tail, escaping)
    ensures OnTrack(s, sent, tail, t0, Between, line, escaping, port)
  {
    TakenLine(sent, tail, escaping);
    hide Taken, Line, OnLine, Plausible, Quiet, Idle;
  }

  /** What a call does: no report and the same frames to come, or a report that accounts for the first of them. */
  ghost predicate Moves(s: State, sent: seq<Attempt>, t0: byte, sent': seq<Attempt>, t1: byte)
    requires AllShaped(Tries(sent))
  {
    if Reported(s) then
      exists spent: nat ::
        Tells(ReportOf(s), Tries(sent), t0, t1, spent) && Tries(sent') == Tries(sent)[spent..]
    else Tries(sent') == Tries(sent) && t1 == t0
  }

  /** A call that finds a time-out inside a frame. */
  lemma TimeOutOnTrack(s: State, sent: seq<Attempt>, tail: seq<byte>, t0: byte, k: nat, esc: bool, part: seq<byte>,
                       pending: seq<byte>, future: seq<byte>)
    returns (sent': seq<Attempt>, tail': seq<byte>, t1: byte)
    requires OnTrack(s, sent, tail, t0, Inside(k, esc, part), pending + future, true, Connected)
    requires |pending| <= |part| && pending != [] && pending[|pending| - 1] == ESCAPE
    requires sent != [] && (|pending| < |part| || GivenUp(sent[0]))
    ensures AllShaped(Tries(sent))
    ensures var r := Loop(s, pending, true, Connected);
      && r.rest == [] && Moves(r.state, sent, t0, sent', t1)
      && OnTrack(r.state, sent', tail', t1, Between, future, true, Connected)
  {
    var m := |pending|;
    InsideFacts(s, sent, tail, t0, k, esc, part, pending + future, true, Connected);
    hide *;
    TriesShaped(sent);
    RestOfLine(sent, tail, true);
    TailPlausible(sent, 1);
    var d, cut, rest := sent[0].frame, sent[0].upto, OnLine(sent[1..], tail, true);
    CutInside(part, pending, future, SendAll(d[cut..], true), Remaining(d, k, esc, true));
    var k' := ReadTimesOut(s, d, k, esc, t0, part, cut, m);
    var next := Behind(part[m..], sent[1..], tail);
    sent', tail', t1 := next.sent, next.tail, TotalAt(d, k', t0);
    BehindPlausible(part[m..], sent[1..], tail);
    BehindLine(part[m..], sent[1..], tail, true);
    var t := Loop(s, pending, true, Connected).state;
    BetweenFrames(t, sent', tail', t1, future, true, Connected);
    TriesBehind(part[m..], sent[1..], tail);
    TriesOf(sent, 1);
    TimedOutMoves(t, sent, t0, sent', k');
  }

  /** The parser is inside the first frame that is sent. */
  lemma InsideFacts(s: State, sent: seq<Attempt>, tail: seq<byte>, t0: byte, k: nat, esc: bool, part: seq<byte>,
                    line: seq<byte>, escaping: bool, port: Port)
    requires OnTrack(s, sent, tail, t0, Inside(k, esc, part), line, escaping, port)
    ensures sent != [] && Plausible(sent) && Quiet(tail) && (escaping || NoneGivenUp(sent)) && Legal(sent[0])
    ensures var d, cut := sent[0].frame, sent[0].upto;
      && Shape(d) && 0 < k < |d| && cut <= |d| && At(s, d, k, esc, t0) && (port.Connected? ==> !esc)
      && InFront(part, d, k, esc, cut, escaping)
    ensures Plausible(sent[1..]) && line == part + OnLine(sent[1..], tail, escaping) && |part| <= |line|
    ensures part == line[..|part|]
  {
    TakenCases(sent, tail);
    RestOfLine(sent, tail, escaping);
    var d := sent[0].frame;
    assert !GivenUp(sent[0]) ==> sent[0].upto == |d| && d[sent[0].upto..] == [] && SendAll([], escaping) == [];
    hide Taken, Line, OnLine, Plausible, Quiet, At, Remaining, SendAll, Shape;
  }

  lemma TimedOutMoves(s: State, sent: seq<Attempt>, t0: byte, sent': seq<Attempt>, k: nat)
    requires Plausible(sent) && sent != [] && AllShaped(Tries(sent)) && Tries(sent') == Tries(sent)[1..]
    requires Reported(s) && ReportOf(s) == Failure(AT_NO_RESPONSE)
    requires 0 < k < sent[0].upto <= |sent[0].frame| && Special(sent[0].frame[k])
    ensures Moves(s, sent, t0, sent', TotalAt(sent[0].frame, k, t0))
  {
    var t := Tries(sent)[0];
    assert TimesOut(t, k, t0, TotalAt(t.frame, k, t0));
    hide TotalAt, ReportOf, Reported, TimesOut, Outcome;
    assert Tells(ReportOf(s), Tries(sent), t0, TotalAt(t.frame, k, t0), 1);
  }

  /** A call that reaches the end of a frame. */
  lemma WholeOnTrack(s: State, sent: seq<Attempt>, tail: seq<byte>, t0: byte, k: nat, esc: bool, part: seq<byte>,
                     pending: seq<byte>, future: seq<byte>, escaping: bool, port: Port)
    requires OnTrack(s, sent, tail, t0, Inside(k, esc, part), pending + future, escaping, port)
    requires sent != [] && !GivenUp(sent[0]) && |pending| >= |part|
    ensures AllShaped(Tries(sent))
    ensures var r := Loop(s, pending, escaping, port);
      && Moves(r.state, sent, t0, sent[1..], 0)
      && OnTrack(r.state, sent[1..], tail, 0, Between, r.rest + future, escaping, port)
  {
    InsideFacts(s, sent, tail, t0, k, esc, part, pending + future, escaping, port);
    var r := Taken(sent, tail);
    TakenCases(sent, tail);
    hide Loop, At, Accept, Line, Outcome, Taken, InFront, Plausible, OnLine, Quiet, ReportOf, Tries, AllShaped, Tells;
    hide Shape;
    TailPlausible(sent, 1);
    TriesShaped(sent);
    TriesOf(sent, 1);
    FirstOf(Segment(sent[0].noise, sent[0].frame), Taken(sent[1..], tail).script);
    ReadWhole(s, r.script, r.tail, t0, k, esc, part, pending, future, escaping, port);
    WholeMoves(Loop(s, pending, escaping, port).state, sent, t0);
  }

  lemma WholeMoves(s: State, sent: seq<Attempt>, t0: byte)
    requires Plausible(sent) && sent != [] && AllShaped(Tries(sent)) && Tries(sent[1..]) == Tries(sent)[1..]
    requires !GivenUp(sent[0]) && Legal(sent[0]) && Reported(s) && ReportOf(s) == Outcome(sent[0].frame, t0)
    ensures Moves(s, sent, t0, sent[1..], 0)
  {
    hide ReportOf, Reported, TimesOut, Outcome;
    assert Tells(ReportOf(s), Tries(sent), t0, 0, 1);
  }

  /** A call that reaches the start byte for which a frame was given up. */
  lemma AbortOnTrack(s: State, sent: seq<Attempt>, tail: seq<byte>, t0: byte, k: nat, esc: bool, part: seq<byte>,
                     pending: seq<byte>, future: seq<byte>, port: Port)
    returns (sent': seq<Attempt>, tail': seq<byte>)
    requires OnTrack(s, sent, tail, t0, Inside(k, esc, part), pending + future, true, port)
    requires sent != [] && GivenUp(sent[0]) && sent[0].upto <= |sent[0].frame| && |pending| > |part|
    ensures AllShaped(Tries(sent))
    ensures var r := Loop(s, pending, true, port); var t1 := TotalAt(sent[0].frame, sent[0].upto, t0);
      && Moves(r.state, sent, t0, sent', t1)
      && OnTrack(r.state, sent', tail', t1, Between, r.rest + future, true, port)
  {
    InsideFacts(s, sent, tail, t0, k, esc, part, pending + future, true, port);
    var r := Taken(sent, tail);
    TakenCases(sent, tail);
    var next := Behind(Missed(sent[1]), sent[2..], tail);
    sent', tail' := next.sent, next.tail;
    hide Loop, At, Accept, Line, Outcome, Taken, InFront, Plausible, OnLine, Quiet, ReportOf, Tries, AllShaped, Tells;
    hide Shape, TotalAt, Behind, Missed;
    TriesShaped(sent);
    TriesOf(sent, 2);
    TriesBehind(Missed(sent[1]), sent[2..], tail);
    FirstOf(Aborted(sent[0].noise, sent[0].frame, sent[0].upto), Taken(sent', tail').script);
    ReadAborted(s, r.script, r.tail, t0, k, esc, part, pending, future, true, port);
    AbortMoves(Loop(s, pending, true, port).state, sent, t0, sent');
  }

  lemma AbortMoves(s: State, sent: seq<Attempt>, t0: byte, sent': seq<Attempt>)
    requires Plausible(sent) && |sent| > 1 && AllShaped(Tries(sent)) && Tries(sent') == Tries(sent)[2..]
    requires GivenUp(sent[0]) && Legal(sent[0]) && Reported(s) && ReportOf(s) == Failure(UNEXPECTED_START_BYTE)
    ensures Moves(s, sent, t0, sent', TotalAt(sent[0].frame, sent[0].upto, t0))
  {
    hide ReportOf, Reported, TimesOut, Outcome, TotalAt;
    assert Tells(ReportOf(s), Tries(sent), t0, TotalAt(sent[0].frame, sent[0].upto, t0), 2);
  }

  lemma ReadOnAnyhow(s: State, sent: seq<Attempt>, tail: seq<byte>, t0: byte, k: nat, esc: bool, part: seq<byte>,
                     pending: seq<byte>, future: seq<byte>, escaping: bool, port: Port)
    returns (sent': seq<Attempt>, tail': seq<byte>, t1: byte, w': Where)
    requires OnTrack(s, sent, tail, t0, Inside(k, esc, part), pending + future, escaping, port)
    ensures AllShaped(Tries(sent))
    ensures var r := Loop(s, pending, escaping, port);
      && Moves(r.state, sent, t0, sent', t1)
      && OnTrack(r.state, sent', tail', t1, w', r.rest + future, escaping, port)
  {
    InsideFacts(s, sent, tail, t0, k, esc, part, pending + future, escaping, port);
    RestOfLine(sent, tail, escaping);
    hide Loop, At, Accept, Line, Outcome, Taken, InFront, Plausible, OnLine, Quiet, ReportOf, Tries, AllShaped, Tells;
    hide Shape, TotalAt, NoneGivenUp, Unbroken;
    TriesShaped(sent);
    sent', tail', t1 := sent, tail, t0;
    if |pending| > |part| || (|pending| == |part| && !GivenUp(sent[0])) {
      if GivenUp(sent[0]) {
        sent', tail' := AbortOnTrack(s, sent, tail, t0, k, esc, part, pending, future, port);
        t1, w' := TotalAt(sent[0].frame, sent[0].upto, t0), Between;
      } else {
        WholeOnTrack(s, sent, tail, t0, k, esc, part, pending, future, escaping, port);
        sent', t1, w' := sent[1..], 0, Between;
      }
    } else if SafeCut(pending, escaping, port) {
      var r := Taken(sent, tail);
      w' := ReadPart(s, r.script, r.tail, t0, k, esc, part, pending, future, escaping, port);
    } else {
      sent', tail', t1 := TimeOutOnTrack(s, sent, tail, t0, k, esc, part, pending, future);
      w' := Between;
    }
  }

  /** Noise that has been read is gone. */
  lemma NoiseTaken(sent: seq<Attempt>, tail: seq<byte>, m: nat) returns (sent': seq<Attempt>, tail': seq<byte>)
    requires Plausible(sent) && Quiet(tail)
    requires m <= |NextNoise(Taken(sent, tail).script, Taken(sent, tail).tail)|
    ensures Plausible(sent') && Quiet(tail') && Tries(sent') == Tries(sent)
    ensures NoneGivenUp(sent) ==> NoneGivenUp(sent')
    ensures var r := Taken(sent, tail);
      Taken(sent', tail') == if r.script == [] then Reading([], r.tail[m..])
                             else Reading([r.script[0].(noise := r.script[0].noise[m..])] + r.script[1..], r.tail)
  {
    sent', tail' := sent, tail;
    var r := Taken(sent, tail);
    TakenCases(sent, tail);
    if sent == [] {
      QuietEnd(tail, m);
      tail' := tail[m..];
    } else {
      var a := sent[0];
      QuietEnd(a.noise, m);
      sent' := [a.(noise := a.noise[m..])] + sent[1..];
      assert sent'[1..] == sent[1..] && (|sent| > 1 ==> sent'[2..] == sent[2..] && sent'[1] == sent[1]);
      hide Taken, Quiet, Missed, Behind, Shape;
      forall i | 0 <= i < |sent'|
        ensures PlausibleAt(sent', i) && (NoneGivenUp(sent) ==> !GivenUp(sent'[i]))
      {
        assert PlausibleAt(sent, i) && (i > 0 ==> sent'[i] == sent[i]);
      }
      TakenCases(sent', tail);
    }
  }

  lemma QuietEnd(a: seq<byte>, m: nat)
    requires Quiet(a) && m <= |a|
    ensures Quiet(a[m..])
  {
  }

  lemma NoiseOnTrack(s: State, sent: seq<Attempt>, tail: seq<byte>, t0: byte,
                     pending: seq<byte>, future: seq<byte>, escaping: bool, port: Port)
    returns (sent': seq<Attempt>, tail': seq<byte>)
    requires OnTrack(s, sent, tail, t0, Between, pending + future, escaping, port) && !Reported(s)
    requires |pending| <= |NextNoise(Taken(sent, tail).script, Taken(sent, tail).tail)|
    ensures AllShaped(Tries(sent)) && Loop(s, pending, escaping, port) == Read(s, [])
    ensures Moves(s, sent, t0, sent', t0) && OnTrack(s, sent', tail', t0, Between, future, escaping, port)
  {
    var r := Taken(sent, tail);
    hide Loop, Line, Taken, Plausible, Quiet, Tries, AllShaped, NoneGivenUp, Idle;
    TriesShaped(sent);
    var _, _ := ReadNoise(s, r.script, r.tail, t0, pending, future, escaping, port);
    sent', tail' := NoiseTaken(sent, tail, |pending|);
  }

  lemma ReadAnyhow(s: State, sent: seq<Attempt>, tail: seq<byte>, t0: byte, w: Where,
                   pending: seq<byte>, future: seq<byte>, escaping: bool, port: Port)
    returns (sent': seq<Attempt>, tail': seq<byte>, t1: byte, w': Where)
    requires Wide(s) && OnTrack(s, sent, tail, t0, w, pending + future, escaping, port)
    ensures AllShaped(Tries(sent))
    ensures var r := ReadPacket(s, pending, escaping, port);
      && Moves(r.state, sent, t0, sent', t1)
      && OnTrack(r.state, sent', tail', t1, w', r.rest + future, escaping, port)
  {
    hide Loop, Line, Taken, Plausible, Quiet, Tries, AllShaped, NoneGivenUp, Moves, Outcomes;
    var u, r := Settled(s), Taken(sent, tail);
    if w.Between? && |pending| <= |NextNoise(r.script, r.tail)| {
      sent', tail' := NoiseOnTrack(u, sent, tail, t0, pending, future, escaping, port);
      t1, w' := t0, w;
      assert [] + future == future;
    } else if w.Between? {
      var left, part := ReadStart(u, r.script, r.tail, t0, pending, future, escaping, port);
      sent', tail', t1, w' :=
        ReadOnAnyhow(u.(pos := 1), sent, tail, t0, 1, false, part, left, future, escaping, port);
    } else {
      sent', tail', t1, w' := ReadOnAnyhow(s, sent, tail, t0, w.k, w.esc, w.part, pending, future, escaping, port);
    }
  }

  // ---- Sessions ------------------------------------------------------------------------------------

  /**
   * Any line of frames, whole or given up for the next, with any noise between them; any mixture of arrivals and
   * calls, cut anywhere, on either kind of port: the reports account for the frames in order, and for all of them
   * once nothing is left.
   */
  lemma {:induction false} SessionExplained(s: State, sent: seq<Attempt>, tail: seq<byte>, t0: byte, w: Where,
                                            pending: seq<byte>, events: seq<Event>, escaping: bool, port: Port)
    requires Wide(s) && OnTrack(s, sent, tail, t0, w, pending + Arrived(events), escaping, port)
    ensures AllShaped(Tries(sent))
    ensures var l := Session(s, pending, events, escaping, port);
      Explained(l.reports, Tries(sent), t0, l.pending == [])
    decreases |events|
  {
    hide *;
    SessionCases(s, pending, events, escaping, port);
    ArrivedCases(pending, events);
    OnTrackFacts(s, sent, tail, t0, w, pending + Arrived(events), escaping, port);
    if events == [] {
      NothingReported(s, sent, tail, t0, w, pending, escaping, port);
    } else if events[0].Arrive? {
      SessionExplained(s, sent, tail, t0, w, pending + events[0].bytes, events[1..], escaping, port);
    } else {
      var sent', tail', t1, w' := ReadAnyhow(s, sent, tail, t0, w, pending, Arrived(events), escaping, port);
      var r := ReadPacket(s, pending, escaping, port);
      SessionExplained(r.state, sent', tail', t1, w', r.rest, events[1..], escaping, port);
      var l := Session(r.state, r.rest, events[1..], escaping, port);
      ExplainedOn(r.state, l.reports, sent, t0, sent', t1, l.pending == []);
    }
  }

  /** In particular from the start of a line. */
  lemma LineExplained(s: State, sent: seq<Attempt>, tail: seq<byte>, events: seq<Event>, escaping: bool, port: Port)
    requires Fresh(s) && Plausible(sent) && Quiet(tail) && (escaping || NoneGivenUp(sent))
    requires Arrived(events) == OnLine(sent, tail, escaping)
    ensures AllShaped(Tries(sent))
    ensures var l := Session(s, [], events, escaping, port); Explained(l.reports, Tries(sent), 0, l.pending == [])
  {
    assert [] + Arrived(events) == Arrived(events);
    hide OnLine, Session, Explained, Plausible, Quiet, NoneGivenUp, Idle;
    BetweenFrames(s, sent, tail, 0, Arrived(events), escaping, port);
    SessionExplained(s, sent, tail, 0, Between, [], events, escaping, port);
  }

  lemma OnTrackFacts(s: State, sent: seq<Attempt>, tail: seq<byte>, t0: byte, w: Where, line: seq<byte>,
                     escaping: bool, port: Port)
    requires OnTrack(s, sent, tail, t0, w, line, escaping, port)
    ensures Plausible(sent) && AllShaped(Tries(sent))
  {
    TriesShaped(sent);
    hide Plausible, Taken;
  }

  lemma NothingReported(s: State, sent: seq<Attempt>, tail: seq<byte>, t0: byte, w: Where, pending: seq<byte>,
                        escaping: bool, port: Port)
    requires OnTrack(s, sent, tail, t0, w, pending, escaping, port) && AllShaped(Tries(sent))
    ensures Explained([], Tries(sent), t0, pending == [])
  {
    if pending == [] {
      var r := Taken(sent, tail);
      LineOver(s, r.script, r.tail, t0, w, escaping, port);
      NoOutcomes(r.script, t0);
      TakenCases(sent, tail);
      if sent != [] { RestOfLine(sent, tail, escaping); }
    }
    hide Taken, Line, Plausible, Quiet, OnLine, AllShaped;
  }

  lemma NoOutcomes(script: seq<Segment>, t0: byte)
    requires WellFormed(script) && Outcomes(script, t0) == []
    ensures script == []
  {
  }

  lemma ExplainedOn(s: State, reports: seq<Report>, sent: seq<Attempt>, t0: byte, sent': seq<Attempt>, t1: byte,
                    over: bool)
    requires AllShaped(Tries(sent)) && AllShaped(Tries(sent'))
    requires Moves(s, sent, t0, sent', t1) && Explained(reports, Tries(sent'), t1, over)
    ensures Explained((if Reported(s) then [ReportOf(s)] else []) + reports, Tries(sent), t0, over)
  {
    hide Tells, Reported, ReportOf, Tries;
    if Reported(s) {
      var all := [ReportOf(s)] + reports;
      assert all[0] == ReportOf(s) && all[1..] == reports;
    } else {
      assert [] + reports == reports;
    }
  }

  // ---- What the next frame becomes -------------------------------------------------------------------

  /** The bytes that a frame cut behind byte k - 1 has added to the checksum total cancel out. */
  predicate LeavesNothing(d: seq<byte>, k: nat)
    requires k <= |d|
  {
    k <= API_ID_INDEX || Sum(d[API_ID_INDEX..k]) % 256 == 0
  }

  /** A good frame that starts with a total left behind is reported as it is exactly if that total is 0. */
  lemma GoodAfter(d: seq<byte>, k: nat, g: seq<byte>)
    requires k <= |d| && Shape(g) && Good(g, 0)
    ensures Outcome(g, TotalAt(d, k, 0)) == Outcome(g, 0) <==> LeavesNothing(d, k)
  {
    var t := TotalAt(d, k, 0);
    if t != 0 { ModApart(Sum(g[API_ID_INDEX..]), t); }
  }

  /** A frame is given up for another behind k of its bytes. Whatever the cuts, the other frame is lost, and a good
      frame after it comes through exactly if the k bytes leave no checksum total behind. */
  lemma AbortedFrame(s: State, d: seq<byte>, k: nat, e: seq<byte>, noise: seq<byte>, g: seq<byte>,
                     events: seq<Event>, port: Port)
    requires Fresh(s) && Shape(d) && 0 < k < |d| && Shape(e) && Quiet(noise) && Shape(g) && Good(g, 0)
    requires Arrived(events) == Encode(d[..k], true) + (Encode(e, true) + (noise + Encode(g, true)))
    requires Session(s, [], events, true, port).safe
    ensures var l := Session(s, [], events, true, port);
      l.pending == [] ==>
        && |l.reports| == 2 && l.reports[0] == Failure(UNEXPECTED_START_BYTE)
        && (l.reports[1] == Outcome(g, 0) <==> LeavesNothing(d, k))
  {
    var lost := SendAll(e[1..], true);
    NoControlBytes(e[1..]);
    var rest := [Segment(lost + noise, g)];
    var script := [Aborted([], d, k)] + rest;
    hide *;
    GoodAfter(d, k, g);
    AbortedLine(d, k, e, noise, g, lost, rest, script);
    SessionStart(s, script, [], events, true, port);
  }

  lemma AbortedLine(d: seq<byte>, k: nat, e: seq<byte>, noise: seq<byte>, g: seq<byte>, lost: seq<byte>,
                    rest: seq<Segment>, script: seq<Segment>)
    requires Shape(d) && 0 < k < |d| && Shape(e) && Quiet(noise) && Shape(g)
    requires lost == SendAll(e[1..], true) && Quiet(lost)
    requires rest == [Segment(lost + noise, g)] && script == [Aborted([], d, k)] + rest
    ensures WellFormed(script)
    ensures Line(script, [], true) == Encode(d[..k], true) + (Encode(e, true) + (noise + Encode(g, true)))
    ensures Outcomes(script, 0) == [Failure(UNEXPECTED_START_BYTE), Outcome(g, TotalAt(d, k, 0))]
  {
    hide SendAll, Outcome, TotalAt;
    assert script[1..] == rest && rest[1..] == [];
    QuietJoin(lost, noise);
    assert Outcomes(rest, TotalAt(d, k, 0)) == [Outcome(g, TotalAt(d, k, 0))] + Outcomes([], 0);
    assert Line(rest, [], true) == (lost + noise) + Encode(g, true);
    var line := noise + Encode(g, true);
    NoiseJoins(lost, noise, Encode(g, true));
    NoiseJoins([START_BYTE], lost, line);
    assert Encode(e, true) == [START_BYTE] + lost;
  }

  /** On an always available port a read ends right behind the escape byte of byte k. The frame is lost, and a good
      frame after it comes through exactly if the k bytes leave no checksum total behind. */
  lemma TimedOutFrame(s: State, d: seq<byte>, k: nat, noise: seq<byte>, g: seq<byte>, later: seq<Event>)
    requires Fresh(s) && Shape(d) && 0 < k < |d| && Special(d[k]) && Quiet(noise) && Shape(g) && Good(g, 0)
    requires Arrived(later) == Remaining(d, k, true, true) + (noise + Encode(g, true))
    requires var r := ReadPacket(s, Encode(d[..k], true) + [ESCAPE], true, Connected);
      Session(r.state, r.rest, later, true, Connected).safe
    ensures var r := ReadPacket(s, Encode(d[..k], true) + [ESCAPE], true, Connected);
      var l := Session(r.state, r.rest, later, true, Connected);
      && Reported(r.state) && ReportOf(r.state) == Failure(AT_NO_RESPONSE)
      && (l.pending == [] ==> |l.reports| == 1 && (l.reports[0] == Outcome(g, 0) <==> LeavesNothing(d, k)))
  {
    var first, rem, t1 := Encode(d[..k], true) + [ESCAPE], Remaining(d, k, true, true), TotalAt(d, k, 0);
    var script := [Segment(rem + noise, g)];
    var r := ReadPacket(s, first, true, Connected);
    GoodAfter(d, k, g);
    hide *;
    FirstTimesOut(s, d, k);
    RestIsQuiet(d, k, true);
    OneFrame(script, rem, noise, g);
    assert [] + Arrived(later) == Arrived(later);
    BetweenScript(r.state, script, t1, Arrived(later));
    SessionInStep(r.state, script, [], t1, Between, [], later, true, Connected);
  }

  lemma OneFrame(script: seq<Segment>, rem: seq<byte>, noise: seq<byte>, g: seq<byte>)
    requires Quiet(rem) && Quiet(noise) && Shape(g) && script == [Segment(rem + noise, g)]
    ensures WellFormed(script) && Line(script, [], true) == rem + (noise + Encode(g, true))
    ensures forall t: byte :: Outcomes(script, t) == [Outcome(g, t)]
  {
    QuietJoin(rem, noise);
    hide Encode, Outcome;
    NoiseJoins(rem, noise, Encode(g, true));
    assert script[1..] == [];
    assert forall t: byte :: Outcomes(script, t) == [Outcome(g, t)] + Outcomes([], 0);
  }

  lemma BetweenScript(s: State, script: seq<Segment>, t0: byte, line: seq<byte>)
    requires WellFormed(script) && Wide(s) && Idle(Settled(s), t0) && line == Line(script, [], true)
    ensures InStep(s, script, [], t0, Between, [] + line, true, Connected)
  {
    assert [] + line == line;
    hide Line, Idle;
  }

  /** The read that times out, from the start byte of the frame. */
  lemma FirstTimesOut(s: State, d: seq<byte>, k: nat)
    requires Fresh(s) && Shape(d) && 0 < k < |d| && Special(d[k])
    ensures var r := ReadPacket(s, Encode(d[..k], true) + [ESCAPE], true, Connected);
      && r.rest == [] && Reported(r.state) && ReportOf(r.state) == Failure(AT_NO_RESPONSE)
      && Wide(r.state) && Idle(Settled(r.state), TotalAt(d, k, 0))
  {
    var u, all := Settled(s), SendAll(d[1..], true);
    var part := SendAll(d[..k][1..], true) + [ESCAPE];
    FreshFacts(s, d);
    hide *;
    TimedOutParts(d, k, part, all);
    TakeStart(u, d, part, 0, true, Connected);
    var k' := ReadTimesOut(u.(pos := 1), d, 1, false, 0, all, |d|, |part|);
    WholeInFront(d, k', all[|part|..]);
    RemainingTells(d, k', true, k, true, true);
  }

  lemma FreshFacts(s: State, d: seq<byte>)
    requires Fresh(s) && Shape(d)
    ensures var u := Settled(s); Idle(u, 0) && !Reported(u) && Wide(u) && |d| > 1
    ensures forall input: seq<byte> :: ReadPacket(s, input, true, Connected) == Loop(Settled(s), input, true, Connected)
  {
    hide Loop;
  }

  lemma WholeInFront(d: seq<byte>, k: nat, part: seq<byte>)
    requires 0 < k < |d| && InFront(part, d, k, true, |d|, true)
    ensures Remaining(d, k, true, true) == part
  {
    assert d[|d|..] == [];
    assert part + [] == part;
    hide Flip;
  }

  /** The frame up to the escape byte, and what is left of it. */
  lemma TimedOutParts(d: seq<byte>, k: nat, part: seq<byte>, all: seq<byte>)
    requires Shape(d) && 0 < k < |d| && Special(d[k])
    requires part == SendAll(d[..k][1..], true) + [ESCAPE] && all == SendAll(d[1..], true)
    ensures Encode(d[..k], true) + [ESCAPE] == [d[0]] + part
    ensures |part| < |all| && all[..|part|] == part && part == all[..|part|] && all[|part| - 1] == ESCAPE
    ensures all[|part|..] == Remaining(d, k, true, true) && InFront(all, d, 1, false, |d|, true)
  {
    var x, c := SendAll(d[..k][1..], true), Remaining(d, k, true, true);
    SendAllSplit(d, 1, k, true);
    EscapedNext(d, k);
    EncodedHead(d, k);
    NotOver(d, k);
    InFrontAll(d, all);
    hide *;
    NoiseJoins([d[0]], x, [ESCAPE]);
    NoiseJoins(x, [ESCAPE], c);
    assert all == part + c;
  }

  lemma EscapedNext(d: seq<byte>, k: nat)
    requires 0 < k < |d| && Special(d[k])
    ensures SendAll(d[k..], true) == [ESCAPE] + Remaining(d, k, true, true)
  {
    SendAllNext(d, k, true);
    hide SendAll, Flip;
  }

  lemma EncodedHead(d: seq<byte>, k: nat)
    requires 0 < k < |d|
    ensures Encode(d[..k], true) == [d[0]] + SendAll(d[..k][1..], true)
  {
    hide SendAll;
  }

  lemma InFrontAll(d: seq<byte>, all: seq<byte>)
    requires |d| > 1 && all == SendAll(d[1..], true)
    ensures InFront(all, d, 1, false, |d|, true)
  {
    assert d[|d|..] == [];
    assert all + [] == all;
  }

  lemma NotOver(d: seq<byte>, k: nat)
    requires 0 < k < |d|
    ensures Remaining(d, k, true, true) != [] && SendAll([], true) == []
  {
  }

  /** A frame given up right behind an escape byte: if that byte came with an earlier read, the start byte is seen for
      what it is. The frame is reported as given up, and leaves the total of its k bytes. */
  lemma GivenUpInPair(s: State, d: seq<byte>, k: nat, t0: byte, rest: seq<byte>, port: Port)
    requires Shape(d) && 0 < k < |d| && At(s, d, k, true, t0)
    ensures var r := ReadPacket(s, [START_BYTE] + rest, true, port);
      && r.rest == rest && Reported(r.state) && ReportOf(r.state) == Failure(UNEXPECTED_START_BYTE)
      && Idle(Settled(r.state), TotalAt(d, k, t0))
  {
    LoopAbort(s, rest, port);
    hide Loop;
  }

  /** A frame given up right behind an escape byte: if the start byte of the next frame comes with the same read it is
      taken as the partner, and the parser goes on inside the lost frame as if byte k had been 0x5E. */
  lemma SwallowedStart(s: State, d: seq<byte>, k: nat, t0: byte, rest: seq<byte>, port: Port) returns (t: State)
    requires Shape(d) && 0 < k < |d| - 1 && At(s, d, k, false, t0)
    ensures At(t, d[..k] + [0x5E], k + 1, false, t0)
    ensures Loop(s, [ESCAPE, START_BYTE] + rest, true, port) == Loop(t, rest, true, port)
  {
    hide Accept;
    var d', input := d[..k] + [0x5E], [ESCAPE, START_BYTE] + rest;
    FlipIs(START_BYTE);
    assert input[1..][1..] == rest;
    assert k > API_ID_INDEX ==> d'[API_ID_INDEX..k] == d[API_ID_INDEX..k];
    assert k >= 4 ==> d'[4..k] == d[4..k];
    AcceptNext(s, d', k, t0);
    t := Accept(s, 0x5E);
  }
}

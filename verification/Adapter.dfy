/**
 * The adapter: its data items, the order of a scan over all of them, and what a client is sent.
 */
module Adapter {
  import opened ConditionSpec
  import opened C = Condition
  import opened ConditionSync

  /** A call of the device code on one data item, and a line sent for one. */
  datatype Call = Call(datum: nat, op: Op)
  datatype Sent = Sent(datum: nat, line: Report)

  function OpsFor(calls: seq<Call>, i: nat): seq<Op> {
    if calls == [] then []
    else
      var n := |calls| - 1;
      OpsFor(calls[..n], i) + if calls[n].datum == i then [calls[n].op] else []
  }

  function LinesFor(sent: seq<Sent>, i: nat): seq<Report> {
    if sent == [] then []
    else
      var n := |sent| - 1;
      LinesFor(sent[..n], i) + if sent[n].datum == i then [sent[n].line] else []
  }

  function Tagged(i: nat, lines: seq<Report>): seq<Sent> {
    seq(|lines|, k requires 0 <= k < |lines| => Sent(i, lines[k]))
  }

  /** The calls on the i-th data item, scan by scan. */
  function ScansFor(scans: seq<seq<Call>>, i: nat): seq<seq<Op>> {
    seq(|scans|, n requires 0 <= n < |scans| => OpsFor(scans[n], i))
  }

  predicate Known(calls: seq<Call>, size: nat) {
    forall k | 0 <= k < |calls| :: calls[k].datum < size
  }

  // ---- Lines and calls by data item ----------------------------------------------------------------

  lemma {:induction false} LinesJoined(a: seq<Sent>, b: seq<Sent>, i: nat)
    ensures LinesFor(a + b, i) == LinesFor(a, i) + LinesFor(b, i)
    decreases |b|
  {
    if b == [] {
      assert a + b == a;
    } else {
      var n := |b| - 1;
      assert (a + b)[..|a| + n] == a + b[..n];
      LinesJoined(a, b[..n], i);
    }
  }

  lemma {:induction false} LinesTagged(j: nat, lines: seq<Report>, i: nat)
    ensures LinesFor(Tagged(j, lines), i) == if i == j then lines else []
    decreases |lines|
  {
    if lines != [] {
      var n := |lines| - 1;
      assert Tagged(j, lines)[..n] == Tagged(j, lines[..n]);
      LinesTagged(j, lines[..n], i);
      assert lines == lines[..n] + [lines[n]];
    }
  }

  lemma CallNext(calls: seq<Call>, n: nat, i: nat)
    requires n < |calls|
    ensures OpsFor(calls[..n + 1], i) == OpsFor(calls[..n], i) + if calls[n].datum == i then [calls[n].op] else []
  {
    assert calls[..n + 1][..n] == calls[..n];
  }

  lemma GatherNext(s: State, ops: seq<Op>, op: Op)
    ensures Gather(s, ops + [op]) == Step(Gather(s, ops), op)
  {
    assert (ops + [op])[..|ops|] == ops;
  }

  lemma ScansNext(scans: seq<seq<Call>>, n: nat, i: nat)
    requires n < |scans|
    ensures ScansFor(scans[..n + 1], i) == ScansFor(scans[..n], i) + [OpsFor(scans[n], i)]
  {
    assert forall k | 0 <= k < n :: scans[..n + 1][k] == scans[..n][k];
    hide OpsFor;
  }

  lemma ScansEnds(scans: seq<seq<Call>>, i: nat)
    ensures scans[..|scans|] == scans && scans[..0] == [] && ScansFor([], i) == []
    ensures |ScansFor(scans, i)| == |scans|
    ensures forall n | 0 <= n < |scans| :: ScansFor(scans, i)[n] == OpsFor(scans[n], i)
  {
  }

  lemma NoCalls(s: State, i: nat)
    ensures OpsFor([], i) == [] && Gather(s, []) == s && LinesFor([], i) == []
  {
  }

  // ---- The adapter ---------------------------------------------------------------------------------

  /** The state of a condition, which only its own objects can change. */
  ghost function StateOf(c: C.Condition): State
    requires c.Valid()
    reads c, c.Repr
  {
    assert forall i | 0 <= i < |c.Live| :: c.Live[i] in c.Repr;
    c.Abs()
  }

  lemma LiveInRepr(c: C.Condition)
    requires c.Valid()
    ensures StateOf(c) == c.Abs() && c in c.Repr
    ensures forall i | 0 <= i < |c.Live| :: c.Live[i] in c.Repr
  {
  }

  class Adapter {
    var data: seq<C.Condition>
    ghost var Repr: set<object>

    ghost predicate Valid()
      reads this, Repr
    {
      && this in Repr
      && (forall i | 0 <= i < |data| ::
            data[i] in Repr && data[i].Repr <= Repr && this !in data[i].Repr && data[i].Valid())
      && (forall i, j | 0 <= i < j < |data| :: data[i].Repr !! data[j].Repr)
    }

    /** The state of the i-th data item. */
    ghost function At(i: nat): State
      requires Valid() && i < |data|
      reads this, Repr
    {
      StateOf(data[i])
    }

    /** Every data item is outside a scan and in a reachable shape. */
    ghost predicate Ready()
      requires Valid()
      reads this, Repr
    {
      forall j: nat | j < |data| :: Shape(At(j).list) && !At(j).begun
    }

    constructor ()
      ensures Valid() && fresh(Repr) && data == [] && Ready()
    {
      data := [];
      Repr := {this};
    }

    method AddDatum(c: C.Condition)
      requires Valid() && c.Valid() && c.Repr !! Repr
      modifies this
      ensures Valid() && Repr == old(Repr) + c.Repr && data == old(data) + [c]
      ensures At(|old(data)|) == c.Abs()
      ensures forall j: nat | j < |old(data)| :: At(j) == old(At(j))
      ensures old(Ready()) && Shape(c.Abs().list) && !c.Abs().begun ==> Ready()
    {
      LiveInRepr(c);
      data := data + [c];
      Repr := Repr + c.Repr;
      assert forall j | 0 <= j < |old(data)| :: data[j] == old(data)[j];
    }

    /** What happens to one data item does not happen to the others. */
    twostate lemma OthersKept(n: nat)
      requires old(Valid()) && data == old(data) && n < |data|
      requires data[n].Valid() && fresh(data[n].Repr - old(data[n].Repr)) && Repr == old(Repr) + data[n].Repr
      requires forall o: object | o in old(Repr) && o != this && o !in old(data[n].Repr) :: unchanged(o)
      ensures Valid() && fresh(Repr - old(Repr)) && At(n) == data[n].Abs()
      ensures forall j: nat | j < |data| && j != n :: At(j) == old(At(j))
    {
      forall j | 0 <= j < |data| && j != n
        ensures data[j].Repr == old(data[j].Repr) && data[j].Valid() && StateOf(data[j]) == old(StateOf(data[j]))
      {
        assert unchanged(data[j]);
      }
    }

    method BeginOne(n: nat)
      requires Valid() && n < |data|
      modifies Repr
      ensures Valid() && fresh(Repr - old(Repr)) && data == old(data)
      ensures At(n) == ConditionSpec.Begin(old(At(n)))
      ensures forall j: nat | j < |data| && j != n :: At(j) == old(At(j))
    {
      hide C.Condition.Valid, C.Condition.Abs, ConditionSpec.Begin;
      LiveInRepr(data[n]);
      data[n].Begin();
      Repr := Repr + data[n].Repr;
      OthersKept(n);
    }

    method PrepareOne(n: nat)
      requires Valid() && n < |data|
      modifies Repr
      ensures Valid() && fresh(Repr - old(Repr)) && data == old(data)
      ensures At(n) == ConditionSpec.Prepare(old(At(n)))
      ensures forall j: nat | j < |data| && j != n :: At(j) == old(At(j))
    {
      hide C.Condition.Valid, C.Condition.Abs, ConditionSpec.Prepare;
      LiveInRepr(data[n]);
      data[n].Prepare();
      Repr := Repr + data[n].Repr;
      OthersKept(n);
    }

    method CleanupOne(n: nat)
      requires Valid() && n < |data|
      modifies Repr
      ensures Valid() && fresh(Repr - old(Repr)) && data == old(data)
      ensures At(n) == ConditionSpec.Cleanup(old(At(n)))
      ensures forall j: nat | j < |data| && j != n :: At(j) == old(At(j))
    {
      hide C.Condition.Valid, C.Condition.Abs, ConditionSpec.Cleanup;
      LiveInRepr(data[n]);
      data[n].Cleanup();
      Repr := Repr + data[n].Repr;
      OthersKept(n);
    }

    /** sendDatum, with the lines for the client. */
    method SendDatum(n: nat) returns (sent: seq<Sent>)
      requires Valid() && n < |data|
      modifies Repr
      ensures Valid() && fresh(Repr - old(Repr)) && data == old(data)
      ensures At(n) == ConditionSpec.Append(old(At(n))) && sent == Tagged(n, AppendLines(old(At(n))))
      ensures forall j: nat | j < |data| && j != n :: At(j) == old(At(j))
    {
      hide C.Condition.Valid, C.Condition.Abs, ConditionSpec.Append, AppendLines, Tagged;
      LiveInRepr(data[n]);
      var lines, _ := data[n].Append();
      sent := Tagged(n, lines);
      Repr := Repr + data[n].Repr;
      OthersKept(n);
    }

    /** One call of the device code. */
    method Perform(call: Call)
      requires Valid() && call.datum < |data|
      modifies Repr
      ensures Valid() && fresh(Repr - old(Repr)) && data == old(data)
      ensures At(call.datum) == Step(old(At(call.datum)), call.op)
      ensures forall j: nat | j < |data| && j != call.datum :: At(j) == old(At(j))
    {
      hide C.Condition.Valid, C.Condition.Abs, Add, ConditionSpec.Remove;
      var n := call.datum;
      LiveInRepr(data[n]);
      match call.op {
        case Assert(r) => var _ := data[n].AddReport(r);
        case Retract(code) => data[n].Remove(code);
      }
      Repr := Repr + data[n].Repr;
      OthersKept(n);
    }

    // ---- Over all data items -----------------------------------------------------------------------

    method Begin()
      requires Valid()
      modifies Repr
      ensures Valid() && fresh(Repr - old(Repr)) && data == old(data)
      ensures forall j: nat | j < |data| :: At(j) == ConditionSpec.Begin(old(At(j)))
    {
      hide *;
      for n := 0 to |data|
        invariant Valid() && fresh(Repr - old(Repr)) && data == old(data)
        invariant forall j: nat | j < |data| :: At(j) == if j < n then ConditionSpec.Begin(old(At(j))) else old(At(j))
      {
        BeginOne(n);
      }
    }

    method Prepare()
      requires Valid()
      modifies Repr
      ensures Valid() && fresh(Repr - old(Repr)) && data == old(data)
      ensures forall j: nat | j < |data| :: At(j) == ConditionSpec.Prepare(old(At(j)))
    {
      hide *;
      for n := 0 to |data|
        invariant Valid() && fresh(Repr - old(Repr)) && data == old(data)
        invariant forall j: nat | j < |data| :: At(j) == if j < n then ConditionSpec.Prepare(old(At(j))) else old(At(j))
      {
        PrepareOne(n);
      }
    }

    method Cleanup()
      requires Valid()
      modifies Repr
      ensures Valid() && fresh(Repr - old(Repr)) && data == old(data)
      ensures forall j: nat | j < |data| :: At(j) == ConditionSpec.Cleanup(old(At(j)))
    {
      hide *;
      for n := 0 to |data|
        invariant Valid() && fresh(Repr - old(Repr)) && data == old(data)
        invariant forall j: nat | j < |data| :: At(j) == if j < n then ConditionSpec.Cleanup(old(At(j))) else old(At(j))
      {
        CleanupOne(n);
      }
    }

    /** What the device code does while data is gathered: any calls on any data items. */
    method GatherDeviceData(calls: seq<Call>)
      requires Valid() && Known(calls, |data|)
      modifies Repr
      ensures Valid() && fresh(Repr - old(Repr)) && data == old(data)
      ensures forall j: nat | j < |data| :: At(j) == Gather(old(At(j)), OpsFor(calls, j))
    {
      assert forall k | 0 <= k < |calls| :: calls[k].datum < |data|;
      assert calls[..|calls|] == calls && calls[..0] == [];
      hide *;
      forall j: nat | j < |data| { NoCalls(At(j), j); }
      for n := 0 to |calls|
        invariant Valid() && fresh(Repr - old(Repr)) && data == old(data)
        invariant forall j: nat | j < |data| :: At(j) == Gather(old(At(j)), OpsFor(calls[..n], j))
      {
        Perform(calls[n]);
        forall j: nat | j < |data|
          ensures At(j) == Gather(old(At(j)), OpsFor(calls[..n + 1], j))
        {
          CallNext(calls, n, j);
          GatherNext(old(At(j)), OpsFor(calls[..n], j), calls[n].op);
          NothingMore(OpsFor(calls[..n], j));
        }
      }
    }

    /** Sends the data items that have changed. */
    method SendChangedData() returns (sent: seq<Sent>)
      requires Valid()
      modifies Repr
      ensures Valid() && fresh(Repr - old(Repr)) && data == old(data)
      ensures forall j: nat | j < |data| ::
                At(j) == if old(At(j)).changed then ConditionSpec.Append(old(At(j))) else old(At(j))
      ensures forall j: nat | j < |data| ::
                LinesFor(sent, j) == if old(At(j)).changed then AppendLines(old(At(j))) else []
    {
      sent := [];
      hide *;
      forall j: nat | j < |data| { NoCalls(At(j), j); }
      for n := 0 to |data|
        invariant Valid() && fresh(Repr - old(Repr)) && data == old(data)
        invariant forall j: nat | j < |data| ::
                    At(j) == if j < n && old(At(j)).changed then ConditionSpec.Append(old(At(j))) else old(At(j))
        invariant forall j: nat | j < |data| ::
                    LinesFor(sent, j) == if j < n && old(At(j)).changed then AppendLines(old(At(j))) else []
      {
        ChangedIs(n);
        if data[n].mChanged {
          var more := SendDatum(n);
          forall j: nat | j < |data|
            ensures LinesFor(sent + more, j) == LinesFor(sent, j) + if j == n then AppendLines(old(At(n))) else []
          {
            LinesJoined(sent, more, j);
            LinesTagged(n, AppendLines(old(At(n))), j);
          }
          sent := sent + more;
          NothingBefore(AppendLines(old(At(n))));
        }
      }
    }

    lemma ChangedIs(n: nat)
      requires Valid() && n < |data|
      ensures At(n).changed == data[n].mChanged
    {
    }

    /** One turn of the server loop: begin, gather, prepare, send what changed, clean up. */
    method Scan(calls: seq<Call>) returns (sent: seq<Sent>)
      requires Valid() && Known(calls, |data|)
      modifies Repr
      ensures Valid() && fresh(Repr - old(Repr)) && data == old(data)
      ensures forall j: nat | j < |data| :: At(j) == ConditionSpec.Scan(old(At(j)), OpsFor(calls, j))
      ensures forall j: nat | j < |data| :: LinesFor(sent, j) == ScanLines(old(At(j)), OpsFor(calls, j))
      ensures forall j: nat | j < |data| && Shape(old(At(j)).list) && AllLegal(OpsFor(calls, j)) ::
                Shape(At(j).list) && !At(j).begun
    {
      hide *;
      Begin();
      GatherDeviceData(calls);
      Prepare();
      sent := SendChangedData();
      Cleanup();
      forall j: nat | j < |data|
        ensures At(j) == ConditionSpec.Scan(old(At(j)), OpsFor(calls, j))
        ensures LinesFor(sent, j) == ScanLines(old(At(j)), OpsFor(calls, j))
        ensures Shape(old(At(j)).list) && AllLegal(OpsFor(calls, j)) ==> Shape(At(j).list) && !At(j).begun
      {
        ScanIs(old(At(j)), OpsFor(calls, j));
        if Shape(old(At(j)).list) && AllLegal(OpsFor(calls, j)) {
          ScanShape(old(At(j)), OpsFor(calls, j));
        }
      }
    }

    /** A new client is sent every entry of every data item, outside any scan. */
    method SendInitialData(calls: seq<Call>) returns (sent: seq<Sent>)
      requires Valid() && Known(calls, |data|)
      modifies Repr
      ensures Valid() && fresh(Repr - old(Repr)) && data == old(data)
      ensures forall j: nat | j < |data| :: At(j) == ConditionSpec.Append(Gather(old(At(j)), OpsFor(calls, j)))
      ensures forall j: nat | j < |data| :: LinesFor(sent, j) == AppendLines(Gather(old(At(j)), OpsFor(calls, j)))
    {
      sent := [];
      hide *;
      GatherDeviceData(calls);
      label Gathered:
      forall j: nat | j < |data| { NoCalls(At(j), j); }
      for n := 0 to |data|
        invariant Valid() && fresh(Repr - old(Repr)) && data == old(data)
        invariant forall j: nat | j < |data| ::
                    At(j) == if j < n then ConditionSpec.Append(old@Gathered(At(j))) else old@Gathered(At(j))
        invariant forall j: nat | j < |data| ::
                    LinesFor(sent, j) == if j < n then AppendLines(old@Gathered(At(j))) else []
      {
        var more := SendDatum(n);
        forall j: nat | j < |data|
          ensures LinesFor(sent + more, j)
                  == LinesFor(sent, j) + if j == n then AppendLines(old@Gathered(At(n))) else []
        {
          LinesJoined(sent, more, j);
          LinesTagged(n, AppendLines(old@Gathered(At(n))), j);
        }
        sent := sent + more;
        NothingBefore(AppendLines(old@Gathered(At(n))));
      }
    }
  }

  lemma NothingMore(ops: seq<Op>)
    ensures ops + [] == ops
  {
  }

  lemma NothingBefore(lines: seq<Report>)
    ensures [] + lines == lines
    ensures forall a: seq<Report> :: a + [] == a
  {
  }

  lemma ScanIs(s: State, ops: seq<Op>)
    ensures var p := ConditionSpec.Prepare(Gather(ConditionSpec.Begin(s), ops));
      && ConditionSpec.Scan(s, ops) == ConditionSpec.Cleanup(if p.changed then ConditionSpec.Append(p) else p)
      && ScanLines(s, ops) == if p.changed then AppendLines(p) else []
  {
    hide ConditionSpec.Prepare, Gather, ConditionSpec.Begin, ConditionSpec.Append, ConditionSpec.Cleanup, AppendLines;
  }

  // ---- The client ----------------------------------------------------------------------------------

  /** A condition as constructed. */
  function NewState(simple: bool): State {
    State([NewEntry(Report(Unavailable, "", "", "", ""))], true, false, false, simple)
  }

  lemma NewShape(simple: bool)
    ensures Shape(NewState(simple).list) && !NewState(simple).begun
  {
  }

  /** A client that connects before anything was gathered is told that the data item is unavailable. */
  lemma NewIsUnavailable(simple: bool)
    ensures Gather(NewState(simple), []) == NewState(simple)
    ensures AppendLines(NewState(simple)) == [Report(Unavailable, "", "", "", "")]
    ensures Replay(Down, AppendLines(NewState(simple))) == Down
  {
    var one := Report(Unavailable, "", "", "", "");
    assert AppendLines(NewState(simple)) == [one];
    assert [one][..0] == [];
  }

  /** An adapter with one new condition for each flag. */
  method Build(simple: seq<bool>) returns (a: Adapter)
    ensures a.Valid() && fresh(a.Repr) && a.Ready() && |a.data| == |simple|
    ensures forall j: nat | j < |simple| :: a.At(j) == NewState(simple[j])
  {
    hide C.Condition.Valid, C.Condition.Abs, Adapter.Valid, Adapter.Ready, Adapter.At, Shape;
    a := new Adapter();
    for n := 0 to |simple|
      invariant a.Valid() && fresh(a.Repr) && a.Ready() && |a.data| == n
      invariant forall j: nat | j < n :: a.At(j) == NewState(simple[j])
    {
      NewShape(simple[n]);
      var c := new C.Condition(simple[n]);
      a.AddDatum(c);
    }
  }

  /** What a data item is after the first calls and the first sending. */
  function Greeted(start: State, first: seq<Op>): State {
    ConditionSpec.Append(Gather(start, first))
  }

  /** The client of a new connection, once everything it is sent first is replayed. */
  lemma Connected(start: State, first: seq<Op>)
    requires Shape(start.list) && !start.begun && AllLegal(first)
    ensures var s := Gather(start, first); Synced(Replay(Down, AppendLines(s)), ConditionSpec.Append(s).list)
  {
    hide *;
    GatherShape(start, first);
    GatherFlags(start, first);
    FirstContact(Gather(start, first));
  }

  /** What the client of a new connection shows of a data item after some scans. */
  function Shown(start: State, first: seq<Op>, scans: seq<seq<Op>>): Replica {
    Client(Replay(Down, AppendLines(Gather(start, first))), Greeted(start, first), scans)
  }

  lemma ShownFirst(start: State, first: seq<Op>)
    ensures Greeted(start, first) == ConditionSpec.Append(Gather(start, first)) == Run(Greeted(start, first), [])
    ensures Replay(Down, AppendLines(Gather(start, first))) == Shown(start, first, [])
  {
    hide ConditionSpec.Append, Gather, Replay, AppendLines;
  }

  lemma ShownNext(start: State, first: seq<Op>, scans: seq<seq<Op>>, ops: seq<Op>, sent: seq<Report>,
                  lines: seq<Report>)
    requires Replay(Down, sent) == Shown(start, first, scans)
    requires lines == ScanLines(Run(Greeted(start, first), scans), ops)
    ensures Run(Greeted(start, first), scans + [ops]) == ConditionSpec.Scan(Run(Greeted(start, first), scans), ops)
    ensures Replay(Down, sent + lines) == Shown(start, first, scans + [ops])
  {
    var r, s := Replay(Down, AppendLines(Gather(start, first))), Greeted(start, first);
    assert (scans + [ops])[..|scans|] == scans;
    ReplayAppend(Down, sent, lines);
    LastScan(r, s, scans + [ops]);
    hide Replay, AppendLines, Gather, Greeted, Run, Client, ConditionSpec.Scan, ScanLines;
  }

  /** The client agrees with the data item after the first sending and after every scan exactly if no scan forgets. */
  lemma ServedExactly(start: State, first: seq<Op>, scans: seq<seq<Op>>)
    requires Shape(start.list) && !start.begun && AllLegal(first) && AllScansLegal(scans)
    ensures var r, s := Shown(start, first, []), Greeted(start, first);
      InStepThroughout(r, s, scans) <==> forall n | 0 <= n < |scans| :: KeepsStepAt(r, s, scans, n)
    ensures InStepThroughout(Shown(start, first, []), Greeted(start, first), scans) ==>
              Synced(Shown(start, first, scans), Run(Greeted(start, first), scans).list)
  {
    ShownIs(start, first, scans);
    hide *;
    ShownFirst(start, first);
    Connected(start, first);
    var r, s := Shown(start, first, []), Greeted(start, first);
    RunExact(r, s, scans);
    if InStepThroughout(r, s, scans) { ThroughoutEnd(r, s, scans); }
  }

  lemma ShownIs(start: State, first: seq<Op>, scans: seq<seq<Op>>)
    ensures Shown(start, first, scans) == Client(Shown(start, first, []), Greeted(start, first), scans)
  {
    hide Greeted, Gather, AppendLines, Replay;
  }

  /** A data item that starts in a reachable shape, and scans of it that forget no alarm. */
  predicate ForgetsNothing(start: State, first: seq<Op>, scans: seq<seq<Op>>) {
    && Shape(start.list) && !start.begun && AllLegal(first) && AllScansLegal(scans)
    && forall n | 0 <= n < |scans| :: KeepsStepAt(Shown(start, first, []), Greeted(start, first), scans, n)
  }

  lemma ForgetsNothingServed(start: State, first: seq<Op>, scans: seq<seq<Op>>)
    requires ForgetsNothing(start, first, scans)
    ensures Synced(Shown(start, first, scans), Run(Greeted(start, first), scans).list)
  {
    hide Shape, AllLegal, AllScansLegal, KeepsStepAt, Shown, Greeted, Synced, Run, InStepThroughout;
    ServedExactly(start, first, scans);
  }

  /** Scans that assert alarms first and clear at most at the end. */
  lemma DisciplinedForgetNothing(start: State, first: seq<Op>, scans: seq<seq<Op>>)
    requires Shape(start.list) && !start.begun && AllLegal(first)
    requires forall n | 0 <= n < |scans| :: Disciplined(scans[n])
    ensures ForgetsNothing(start, first, scans)
  {
    var r, s := Shown(start, first, []), Greeted(start, first);
    AllDisciplinedLegal(scans);
    hide Shape, Shown, Greeted, Synced, Client, Run, Disciplined, AllLegal, AllScansLegal;
    ShownFirst(start, first);
    Connected(start, first);
    forall n | 0 <= n < |scans|
      ensures KeepsStepAt(r, s, scans, n)
    {
      DisciplinedRun(r, s, scans[..n]);
      DisciplinedKeepsStep(Client(r, s, scans[..n]), Run(s, scans[..n]), scans[n]);
    }
  }

  lemma AllDisciplinedLegal(scans: seq<seq<Op>>)
    requires forall n | 0 <= n < |scans| :: Disciplined(scans[n])
    ensures AllScansLegal(scans)
  {
  }

  lemma DisciplinedKeepsStep(r: Replica, s: State, ops: seq<Op>)
    requires Synced(r, s.list) && Disciplined(ops)
    ensures KeepsStep(r, s, ops)
  {
    AllDisciplinedLegal([ops]) by { assert [ops][0] == ops; }
    assert AllLegal(ops) by { assert [ops][0] == ops; }
    DisciplinedIsPlain(ops);
    hide *;
    DisciplinedForgetsNothing(r, ops);
    PlainScanExact(r, s, ops);
    ScanExact(r, s, ops);
  }

  /**
   * A client connects and then follows any scans of any data items: for each of them, the lines the client has been
   * sent, replayed from nothing, give what the specification says, and the adapter's own picture unless a scan
   * forgets an alarm.
   */
  method Serve(a: Adapter, first: seq<Call>, scans: seq<seq<Call>>) returns (sent: seq<Sent>)
    requires a.Valid() && Known(first, |a.data|)
    requires forall n | 0 <= n < |scans| :: Known(scans[n], |a.data|)
    modifies a.Repr
    ensures a.Valid() && fresh(a.Repr - old(a.Repr)) && a.data == old(a.data)
    ensures forall j: nat | j < |a.data| ::
              a.At(j) == Run(Greeted(old(a.At(j)), OpsFor(first, j)), ScansFor(scans, j))
    ensures forall j: nat | j < |a.data| ::
              Replay(Down, LinesFor(sent, j)) == Shown(old(a.At(j)), OpsFor(first, j), ScansFor(scans, j))
    ensures forall j: nat | j < |a.data| && ForgetsNothing(old(a.At(j)), OpsFor(first, j), ScansFor(scans, j)) ::
              Synced(Replay(Down, LinesFor(sent, j)), a.At(j).list)
  {
    hide *;
    sent := a.SendInitialData(first);
    assert scans[..0] == [];
    forall j: nat | j < |a.data|
      ensures a.At(j) == Run(Greeted(old(a.At(j)), OpsFor(first, j)), ScansFor([], j))
      ensures Replay(Down, LinesFor(sent, j)) == Shown(old(a.At(j)), OpsFor(first, j), ScansFor([], j))
    {
      ShownFirst(old(a.At(j)), OpsFor(first, j));
      ScansEnds(scans, j);
    }
    for n := 0 to |scans|
      invariant a.Valid() && fresh(a.Repr - old(a.Repr)) && a.data == old(a.data)
      invariant forall j: nat | j < |a.data| ::
                  a.At(j) == Run(Greeted(old(a.At(j)), OpsFor(first, j)), ScansFor(scans[..n], j))
      invariant forall j: nat | j < |a.data| ::
                  Replay(Down, LinesFor(sent, j)) == Shown(old(a.At(j)), OpsFor(first, j), ScansFor(scans[..n], j))
    {
      label Before:
      var more := a.Scan(scans[n]);
      forall j: nat | j < |a.data|
        ensures a.At(j) == Run(Greeted(old(a.At(j)), OpsFor(first, j)), ScansFor(scans[..n + 1], j))
        ensures Replay(Down, LinesFor(sent + more, j))
                == Shown(old(a.At(j)), OpsFor(first, j), ScansFor(scans[..n + 1], j))
      {
        LinesJoined(sent, more, j);
        ScansNext(scans, n, j);
        ShownNext(old(a.At(j)), OpsFor(first, j), ScansFor(scans[..n], j), OpsFor(scans[n], j), LinesFor(sent, j),
                  LinesFor(more, j));
      }
      sent := sent + more;
    }
    assert scans[..|scans|] == scans;
    forall j: nat | j < |a.data| && ForgetsNothing(old(a.At(j)), OpsFor(first, j), ScansFor(scans, j))
      ensures Synced(Replay(Down, LinesFor(sent, j)), a.At(j).list)
    {
      ForgetsNothingServed(old(a.At(j)), OpsFor(first, j), ScansFor(scans, j));
    }
  }

  /** The same from the start: an adapter with new conditions, a client, and scans that forget nothing. */
  method ServeNew(simple: seq<bool>, first: seq<Call>, scans: seq<seq<Call>>) returns (a: Adapter, sent: seq<Sent>)
    requires Known(first, |simple|) && forall n | 0 <= n < |scans| :: Known(scans[n], |simple|)
    ensures a.Valid() && fresh(a.Repr) && |a.data| == |simple|
    ensures forall j: nat | j < |simple| ::
              a.At(j) == Run(Greeted(NewState(simple[j]), OpsFor(first, j)), ScansFor(scans, j))
    ensures forall j: nat | j < |simple| ::
              Replay(Down, LinesFor(sent, j)) == Shown(NewState(simple[j]), OpsFor(first, j), ScansFor(scans, j))
    ensures forall j: nat | j < |simple| && ForgetsNothing(NewState(simple[j]), OpsFor(first, j), ScansFor(scans, j)) ::
              Synced(Replay(Down, LinesFor(sent, j)), a.At(j).list)
  {
    hide *;
    a := Build(simple);
    sent := Serve(a, first, scans);
  }
}

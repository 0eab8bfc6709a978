/**
 * A client that only sees the emitted lines, and when its picture agrees with the adapter's list.
 */
module ConditionSync {
  import opened ConditionSpec

  /** What a client knows about one condition: nothing usable, or the alarms that are active. */
  datatype Replica = Down | Active(faults: map<string, Report>)

  function Faults(r: Replica): map<string, Report> {
    if r.Active? then r.faults else map[]
  }

  /** An uncoded clear replaces everything, a coded clear drops one code, an alarm is upserted. */
  function Apply(r: Replica, line: Report): Replica {
    if Uncoded(line) then (if line.level.Unavailable? then Down else Active(map[]))
    else if Clears(line.level) then Active(Faults(r) - {line.code})
    else Active(Faults(r)[line.code := line])
  }

  function Replay(r: Replica, lines: seq<Report>): Replica {
    if lines == [] then r else Apply(Replay(r, lines[..|lines| - 1]), lines[|lines| - 1])
  }

  /** The adapter's own picture of its list. */
  function FaultMap(l: seq<Entry>): map<string, Report> {
    if l == [] then map[]
    else if Clears(l[0].value.level) then FaultMap(l[1..])
    else FaultMap(l[1..])[l[0].value.code := l[0].value]
  }

  function View(l: seq<Entry>): Replica {
    if AlreadyIn(l, Unavailable) then Down else Active(FaultMap(l))
  }

  predicate Distinct(l: seq<Entry>) {
    forall i, j | 0 <= i < j < |l| :: l[i].value.code != l[j].value.code
  }

  predicate Coded(l: seq<Entry>) {
    forall i | 0 <= i < |l| :: !l[i].placeholder && l[i].value.code != ""
  }

  predicate Fits(v: Report) {
    |v.text| < EVENT_VALUE_LEN && |v.code| < EVENT_VALUE_LEN &&
    |v.qualifier| < EVENT_VALUE_LEN && |v.severity| < EVENT_VALUE_LEN
  }

  predicate Bare(v: Report) {
    Clears(v.level) && v == Report(v.level, "", "", "", "")
  }

  /** The shape of every reachable list: a lone placeholder, or coded entries with distinct codes. */
  predicate Shape(l: seq<Entry>) {
    && |l| > 0
    && Distinct(l)
    && (forall i | 0 <= i < |l| :: Fits(l[i].value))
    && ((|l| == 1 && l[0].placeholder && Bare(l[0].value)) || Coded(l))
  }

  /** Device code asserts alarms under non-empty codes that fit the buffer. */
  predicate Legal(op: Op) {
    op.Assert? ==> |op.report.code| < EVENT_VALUE_LEN && (op.report.code == "" ==> Clears(op.report.level))
  }

  predicate AllLegal(ops: seq<Op>) {
    forall i | 0 <= i < |ops| :: Legal(ops[i])
  }

  function Codes(l: seq<Entry>): set<string> {
    set i | 0 <= i < |l| :: l[i].value.code
  }

  predicate AgreesAt(r: Replica, v: Report) {
    if Clears(v.level) then v.code !in Faults(r)
    else v.code in Faults(r) && Faults(r)[v.code] == v
  }

  /** Entries without a change flag are already known to the client. */
  predicate Tracks(r: Replica, l: seq<Entry>) {
    && Shape(l)
    && if l[0].placeholder then l[0].changed || r == View(l)
       else (forall i | 0 <= i < |l| && !l[i].changed :: AgreesAt(r, l[i].value)) && (r.Active? || AnyChanged(l))
  }

  predicate Synced(r: Replica, l: seq<Entry>) {
    Shape(l) && !AnyChanged(l) && r == View(l)
  }

  /** Alarms the client shows that the list can no longer tell it to clear. */
  function Lost(r: Replica, l: seq<Entry>): set<string>
    requires |l| > 0
  {
    if l[0].placeholder then {} else Faults(r).Keys - Codes(l)
  }

  /** An assertion takes the branch that empties a cleared list before the clear was sent. */
  predicate LosesClear(r: Replica, l: seq<Entry>, op: Op) {
    op.Assert? && !Uncoded(op.report) && LoneClear(l) && !(Faults(r).Keys <= {op.report.code})
  }

  // ---- Lists -------------------------------------------------------------------------------------

  lemma {:induction false} FaultMapAt(l: seq<Entry>)
    requires Distinct(l)
    ensures forall i | 0 <= i < |l| :: AgreesAt(Active(FaultMap(l)), l[i].value)
    ensures FaultMap(l).Keys <= Codes(l)
  {
    if l != [] {
      FaultMapAt(l[1..]);
      assert forall i | 0 < i < |l| :: l[i] == l[1..][i - 1];
      assert forall c | c in Codes(l[1..]) :: c in Codes(l);
      if Clears(l[0].value.level) && l[0].value.code in FaultMap(l[1..]) {
        assert l[0].value.code in Codes(l[1..]);
      }
    }
  }

  lemma ViewLone(l: seq<Entry>)
    requires |l| == 1 && Uncoded(l[0].value)
    ensures View(l) == if l[0].value.level.Unavailable? then Down else Active(map[])
  {
    assert FaultMap(l) == FaultMap(l[1..]);
  }

  /** A map that agrees with every entry and has no further key is the list's fault map. */
  lemma FaultMapIs(l: seq<Entry>, m: map<string, Report>)
    requires Distinct(l)
    requires forall i | 0 <= i < |l| :: AgreesAt(Active(m), l[i].value)
    requires m.Keys <= Codes(l)
    ensures m == FaultMap(l)
  {
    FaultMapAt(l);
    forall c | c in m || c in FaultMap(l)
      ensures c in m && c in FaultMap(l) && m[c] == FaultMap(l)[c]
    {
      assert c in Codes(l);
      var i :| 0 <= i < |l| && l[i].value.code == c;
      assert AgreesAt(Active(m), l[i].value) && AgreesAt(Active(FaultMap(l)), l[i].value);
    }
  }

  /** From r to s, exactly the changed entries of l have been written over their codes. */
  ghost predicate Overwrites(r: Replica, s: Replica, l: seq<Entry>) {
    && (forall i | 0 <= i < |l| && l[i].changed :: AgreesAt(s, l[i].value))
    && (forall c: string | (forall i | 0 <= i < |l| && l[i].changed :: l[i].value.code != c) ::
          SameAt(r, s, c))
    && (if AnyChanged(l) then s.Active? else s == r)
  }

  lemma {:induction false} ReplayChanged(r: Replica, l: seq<Entry>)
    requires Distinct(l) && Coded(l)
    ensures Overwrites(r, Replay(r, ChangedLines(l)), l)
  {
    if l != [] {
      ReplayChanged(r, l[1..]);
      var rest := ChangedLines(l[1..]);
      if l[0].changed {
        assert ChangedLines(l)[..|rest|] == rest;
      } else {
        assert ChangedLines(l) == rest;
      }
      OverwritesCons(r, Replay(r, rest), l);
    }
  }

  /** A line changes the client at its own code only. */
  lemma ApplyAt(s: Replica, v: Report)
    requires v.code != ""
    ensures AgreesAt(Apply(s, v), v) && Apply(s, v).Active?
    ensures forall c: string | c != v.code :: SameAt(Apply(s, v), s, c)
  {
  }

  /** Both show the same under a code. */
  predicate SameAt(r: Replica, s: Replica, c: string) {
    (c in Faults(s) <==> c in Faults(r)) && (c in Faults(r) ==> Faults(s)[c] == Faults(r)[c])
  }

  lemma AgreesAsSame(r: Replica, s: Replica, v: Report)
    requires SameAt(r, s, v.code) && AgreesAt(s, v)
    ensures AgreesAt(r, v)
  {
  }

  lemma OverwritesCons(r: Replica, s: Replica, l: seq<Entry>)
    requires l != [] && Distinct(l) && Coded(l) && Overwrites(r, s, l[1..])
    ensures Overwrites(r, if l[0].changed then Apply(s, l[0].value) else s, l)
  {
    var t := l[1..];
    assert forall i | 0 < i < |l| :: l[i] == t[i - 1];
    if l[0].changed {
      ApplyAt(s, l[0].value);
      var u := Apply(s, l[0].value);
      hide Apply, Faults, AgreesAt;
      forall i | 0 <= i < |l| && l[i].changed
        ensures AgreesAt(u, l[i].value)
      {
        if i > 0 {
          assert AgreesAt(s, t[i - 1].value);
          AgreesAsSame(u, s, l[i].value);
        }
      }
      forall c: string | forall i | 0 <= i < |l| && l[i].changed :: l[i].value.code != c
        ensures SameAt(r, u, c)
      {
        assert forall i | 0 <= i < |t| && t[i].changed :: l[i + 1] == t[i] && t[i].value.code != c;
        SameTwice(r, s, u, c);
      }
    }
  }

  lemma SameTwice(r: Replica, s: Replica, u: Replica, c: string)
    requires SameAt(r, s, c) && SameAt(u, s, c)
    ensures SameAt(r, u, c)
  {
  }

  // ---- One operation -----------------------------------------------------------------------------

  lemma UpdateShape(l: seq<Entry>, i: nat, e: Entry)
    requires Shape(l) && Coded(l) && i < |l| && e.value.code == l[i].value.code && !e.placeholder && Fits(e.value)
    ensures Shape(l[i := e]) && Coded(l[i := e]) && Codes(l[i := e]) == Codes(l)
  {
    assert forall k | 0 <= k < |l| :: l[i := e][k].value.code == l[k].value.code;
  }

  /** A coded report in the place of the entry with its code. */
  lemma Updated(e: Entry, r: Report, marked: bool)
    requires e.value.code == r.code && r.code != "" && |r.code| < EVENT_VALUE_LEN && !e.placeholder && Fits(e.value)
    ensures var u := SetValue(e, r).(marked := marked);
      && u.value.code == r.code && !u.placeholder && Fits(u.value) && u.marked == marked
      && (e.changed ==> u.changed) && (!u.changed ==> u.value == e.value)
  {
  }

  lemma Created(r: Report)
    requires r.code != "" && |r.code| < EVENT_VALUE_LEN
    ensures var e := NewEntry(r); e.value.code == r.code && !e.placeholder && Fits(e.value) && e.changed && e.marked
  {
  }

  lemma PlaceCases(s: State, r: Report)
    ensures var l, i := s.list, Find(s.list, r.code);
      && (i < |l| ==> l[i].value.code == r.code && Place(s, r).list == l[i := SetValue(l[i], r).(marked := true)])
      && (i == |l| ==> r.code !in Codes(l) && Place(s, r).list == l + [NewEntry(r)])
  {
    hide SetValue, NewEntry, Find;
  }

  lemma AddedShape(l: seq<Entry>, e: Entry)
    requires l == [] || (Shape(l) && Coded(l))
    requires e.value.code !in Codes(l) && e.value.code != "" && !e.placeholder && Fits(e.value)
    ensures Shape(l + [e]) && Coded(l + [e]) && Codes(l + [e]) == Codes(l) + {e.value.code}
  {
    var m := l + [e];
    assert m[|l|] == e;
    assert forall k | 0 <= k < |l| :: m[k] == l[k] && l[k].value.code in Codes(l);
  }

  lemma CodeAt(l: seq<Entry>, i: nat)
    requires i < |l|
    ensures l[i].value.code in Codes(l)
    ensures Coded(l) ==> !l[i].placeholder && l[i].value.code != ""
    ensures Shape(l) ==> Fits(l[i].value)
  {
  }

  lemma CodedLength(report: Report)
    requires Legal(Assert(report))
    ensures |report.code| < EVENT_VALUE_LEN
  {
  }

  lemma PlaceShape(s: State, report: Report)
    requires s.list == [] || (Shape(s.list) && Coded(s.list))
    requires Legal(Assert(report)) && report.code != ""
    ensures Shape(Place(s, report).list) && Coded(Place(s, report).list)
    ensures Codes(Place(s, report).list) == Codes(s.list) + {report.code}
  {
    hide *;
    var l, i := s.list, Find(s.list, report.code);
    PlaceCases(s, report);
    CodedLength(report);
    if i < |l| {
      CodeAt(l, i);
      Updated(l[i], report, true);
      UpdateShape(l, i, SetValue(l[i], report).(marked := true));
    } else {
      Created(report);
      AddedShape(l, NewEntry(report));
    }
  }

  lemma StepCases(s: State, op: Op)
    ensures op.Assert? && Uncoded(op.report) ==> Step(s, op).list == Add(s, op.report).list
    ensures op.Assert? && !Uncoded(op.report) ==>
              Step(s, op).list == Place(if LoneClear(s.list) then s.(list := []) else s, op.report).list
    ensures op.Retract? ==>
              var l, i := s.list, Find(s.list, op.code);
              && (i == |l| ==> Step(s, op).list == l && (|l| == 1 ==> l[0].value.code != op.code))
              && (i < |l| ==> l[i].value.code == op.code)
              && (i < |l| && |l| == 1 ==> Step(s, op).list == Add(s, NormalReport("")).list)
              && (i < |l| && |l| > 1 ==>
                    Step(s, op).list == l[i := SetValue(l[i], NormalReport(op.code)).(marked := false)])
  {
    hide Place, SetValue, NewEntry, AlreadyIn;
  }

  /** What an operation may be asked to do, and what shape the list has for it. */
  lemma StepParts(l: seq<Entry>, op: Op)
    requires Shape(l) && Legal(op)
    ensures op.Assert? && !Uncoded(op.report) ==> op.report.code != "" && Legal(Assert(op.report))
    ensures op.Assert? && !Uncoded(op.report) && !LoneClear(l) ==> Coded(l)
    ensures |l| > 1 ==> Coded(l)
    ensures Uncoded(NormalReport(""))
    ensures op.Retract? && Find(l, op.code) < |l| && |l| > 1 ==> op.code != "" && |op.code| < EVENT_VALUE_LEN
    ensures op.Retract? ==> NormalReport(op.code).code == op.code
    ensures |l| > 0
  {
  }

  lemma ClearedShape(s: State, report: Report)
    requires Shape(s.list) && Uncoded(report)
    ensures Shape(Add(s, report).list)
  {
  }

  /** Every operation keeps the shape, whatever the client knows. */
  lemma StepShape(s: State, op: Op)
    requires Shape(s.list) && Legal(op)
    ensures Shape(Step(s, op).list)
  {
    hide *;
    StepCases(s, op);
    StepParts(s.list, op);
    match op
    case Assert(report) =>
      if Uncoded(report) {
        ClearedShape(s, report);
      } else {
        PlaceShape(if LoneClear(s.list) then s.(list := []) else s, report);
      }
    case Retract(code) =>
      var l, i := s.list, Find(s.list, code);
      if i < |l| {
        if |l| == 1 {
          ClearedShape(s, NormalReport(""));
        } else {
          CodeAt(l, i);
          Updated(l[i], NormalReport(code), false);
          UpdateShape(l, i, SetValue(l[i], NormalReport(code)).(marked := false));
        }
      }
  }

  /** What an operation does to the alarms that can no longer be cleared. */
  function LostAfter(r: Replica, l: seq<Entry>, op: Op): set<string>
    requires |l| > 0
  {
    match op
    case Assert(report) =>
      if Uncoded(report) then {}
      else if LoneClear(l) then Faults(r).Keys - {report.code}
      else Lost(r, l) - {report.code}
    case Retract(code) => if |l| == 1 && l[0].value.code == code then {} else Lost(r, l)
  }

  lemma LostCases(r: Replica, l: seq<Entry>, op: Op)
    requires |l| > 0
    ensures op.Assert? && Uncoded(op.report) ==> LostAfter(r, l, op) == {}
    ensures op.Assert? && !Uncoded(op.report) ==>
              LostAfter(r, l, op) == (if LoneClear(l) then Faults(r).Keys else Lost(r, l)) - {op.report.code}
    ensures op.Retract? ==> LostAfter(r, l, op) == if |l| == 1 && l[0].value.code == op.code then {} else Lost(r, l)
  {
    hide Lost, Faults;
  }

  lemma TracksShape(r: Replica, l: seq<Entry>)
    requires Tracks(r, l)
    ensures Shape(l) && |l| > 0
  {
  }

  /** An alarm in a list that has been emptied. */
  lemma FirstTracks(r: Replica, s: State, report: Report)
    requires s.list == [] && Legal(Assert(report)) && report.code != ""
    ensures var l := Place(s, report).list;
      |l| > 0 && Tracks(r, l) && Lost(r, l) == Faults(r).Keys - {report.code}
  {
    PlaceShape(s, report);
    Created(report);
    PlaceCases(s, report);
    hide Place, NewEntry, Faults;
    assert [] + [NewEntry(report)] == [NewEntry(report)];
  }

  lemma StepTracks(r: Replica, s: State, op: Op)
    requires Tracks(r, s.list) && Legal(op)
    ensures Tracks(r, Step(s, op).list) && |s.list| > 0 && |Step(s, op).list| > 0
    ensures Lost(r, Step(s, op).list) == LostAfter(r, s.list, op)
  {
    hide *;
    TracksShape(r, s.list);
    StepCases(s, op);
    StepParts(s.list, op);
    LostCases(r, s.list, op);
    match op {
      case Assert(report) =>
        if Uncoded(report) {
          UncodedTracks(r, s, report);
        } else if LoneClear(s.list) {
          FirstTracks(r, s.(list := []), report);
        } else {
          PlaceTracks(r, s, report);
        }
      case Retract(code) =>
        var l, i := s.list, Find(s.list, code);
        if i < |l| {
          if |l| == 1 {
            UncodedTracks(r, s, NormalReport(""));
          } else {
            CodeAt(l, i);
            Updated(l[i], NormalReport(code), false);
            UpdateTracks(r, l, i, SetValue(l[i], NormalReport(code)).(marked := false));
          }
        }
    }
    TracksShape(r, Step(s, op).list);
  }

  lemma UncodedTracks(r: Replica, s: State, report: Report)
    requires Tracks(r, s.list) && Uncoded(report)
    ensures Tracks(r, Add(s, report).list) && Lost(r, Add(s, report).list) == {}
    ensures |Add(s, report).list| == 1 && Add(s, report).list[0].placeholder
    ensures Add(s, report).list[0].value.level == report.level
  {
    if AlreadyIn(s.list, report.level) {
      ViewLone(s.list);
      ViewLone(Add(s, report).list);
    }
  }

  /** Replacing an entry by one with the same code, flagged unless it says the same. */
  lemma UpdateTracks(r: Replica, l: seq<Entry>, i: nat, e: Entry)
    requires Tracks(r, l) && Coded(l) && i < |l| && e.value.code == l[i].value.code && !e.placeholder && Fits(e.value)
    requires l[i].changed ==> e.changed
    requires !e.changed ==> e.value == l[i].value
    ensures Tracks(r, l[i := e]) && Lost(r, l[i := e]) == Lost(r, l)
  {
    var m := l[i := e];
    UpdateShape(l, i, e);
    if AnyChanged(l) {
      var k :| 0 <= k < |l| && l[k].changed;
      assert m[k].changed;
    }
  }

  lemma AddedTracks(r: Replica, l: seq<Entry>, e: Entry)
    requires Tracks(r, l) && Coded(l)
    requires e.value.code !in Codes(l) && e.value.code != "" && !e.placeholder && Fits(e.value)
    requires e.changed
    ensures Tracks(r, l + [e]) && Lost(r, l + [e]) == Lost(r, l) - {e.value.code}
  {
    AddedShape(l, e);
    assert (l + [e])[|l|].changed;
  }

  lemma PlaceTracks(r: Replica, s: State, report: Report)
    requires Tracks(r, s.list) && Coded(s.list) && Legal(Assert(report)) && report.code != ""
    ensures Tracks(r, Place(s, report).list) && |s.list| > 0 && |Place(s, report).list| > 0
    ensures Lost(r, Place(s, report).list) == Lost(r, s.list) - {report.code}
  {
    hide *;
    var l, i := s.list, Find(s.list, report.code);
    TracksShape(r, l);
    PlaceCases(s, report);
    CodedLength(report);
    if i < |l| {
      CodeAt(l, i);
      Updated(l[i], report, true);
      UpdateTracks(r, l, i, SetValue(l[i], report).(marked := true));
      CodeKept(r, l, report.code);
    } else {
      Created(report);
      AddedTracks(r, l, NewEntry(report));
    }
  }

  lemma CodeKept(r: Replica, l: seq<Entry>, code: string)
    requires |l| > 0 && code in Codes(l)
    ensures Lost(r, l) - {code} == Lost(r, l)
  {
  }

  /** The single call that loses a clear: exactly when the guard finds a lone cleared entry while the
      client still shows another alarm. */
  lemma StepKeepsAllExactly(r: Replica, s: State, op: Op)
    requires Tracks(r, s.list) && Lost(r, s.list) == {} && Legal(op)
    ensures |Step(s, op).list| > 0
    ensures Lost(r, Step(s, op).list) == {} <==> !LosesClear(r, s.list, op)
  {
    StepTracks(r, s, op);
  }

  // ---- The sweep ---------------------------------------------------------------------------------

  lemma SweptShape(l: seq<Entry>)
    requires Shape(l)
    ensures Shape(Sweep(l)) && Codes(Sweep(l)) == Codes(l) && Sweep(l)[0].placeholder == l[0].placeholder
    ensures forall i | 0 <= i < |Sweep(l)| :: Stale(Sweep(l)[i]) ==> Clears(Sweep(l)[i].value.level)
  {
    var m := Sweep(l);
    assert forall i | 0 <= i < |l| ::
      m[i].value.code == l[i].value.code && m[i].placeholder == l[i].placeholder && m[i].marked == l[i].marked;
  }

  /** Sweeping keeps what the client can be told. */
  lemma SweepTracks(r: Replica, l: seq<Entry>)
    requires Tracks(r, l)
    ensures Tracks(r, Sweep(l)) && Lost(r, Sweep(l)) == Lost(r, l)
  {
    SweptShape(l);
    var m := Sweep(l);
    if l[0].placeholder {
      assert m == l;
    } else {
      if AnyChanged(l) {
        var k :| 0 <= k < |l| && l[k].changed;
        assert m[k].changed;
      }
      forall i | 0 <= i < |l| && !m[i].changed
        ensures AgreesAt(r, m[i].value)
      {
        assert !l[i].changed && m[i].value == l[i].value;
      }
    }
  }

  /** Dropping swept entries leaves the alarms of a list alone. */
  lemma {:induction false} WrittenFaults(l: seq<Entry>)
    requires forall i | 0 <= i < |l| && Stale(l[i]) :: Clears(l[i].value.level)
    ensures FaultMap(Written(l)) == FaultMap(l)
  {
    if l != [] {
      var t := Written(l[1..]);
      WrittenFaults(l[1..]);
      if Stale(l[0]) {
        assert Written(l) == t;
      } else {
        assert Written(l)[1..] == t;
      }
    }
  }

  lemma {:induction false} WrittenDistinct(l: seq<Entry>)
    requires Distinct(l)
    ensures Distinct(Written(l)) && !AnyChanged(Written(l))
    ensures forall k | 0 <= k < |Written(l)| :: exists i | 0 <= i < |l| :: l[i].value.code == Written(l)[k].value.code
  {
    if l != [] {
      var w, t := Written(l), Written(l[1..]);
      WrittenDistinct(l[1..]);
      var d := |w| - |t|;
      forall k | 0 <= k < |w|
        ensures exists i | 0 <= i < |l| :: l[i].value.code == w[k].value.code && (i == 0 ==> k < d)
      {
        if k < d {
          assert l[0].value.code == w[k].value.code;
        } else {
          var i :| 0 <= i < |l[1..]| && l[1..][i].value.code == t[k - d].value.code;
          assert l[i + 1].value.code == w[k].value.code;
        }
      }
    }
  }

  lemma {:induction false} WrittenShape(l: seq<Entry>)
    requires Coded(l) && (forall i | 0 <= i < |l| :: Fits(l[i].value))
    ensures Coded(Written(l)) && (forall i | 0 <= i < |Written(l)| :: Fits(Written(l)[i].value))
    ensures Written(l) == [] ==> AllStale(l)
  {
    if l != [] { WrittenShape(l[1..]); }
  }

  lemma WrittenView(l: seq<Entry>)
    requires Shape(l) && !AllStale(l)
    requires forall i | 0 <= i < |l| && Stale(l[i]) :: Clears(l[i].value.level)
    ensures Shape(Written(l)) && !AnyChanged(Written(l))
    ensures View(Written(l)) == View(l)
  {
    WrittenFaults(l);
    WrittenDistinct(l);
    if l[0].placeholder {
      assert Written(l) == [l[0].(changed := false)] + Written([]);
    } else {
      WrittenShape(l);
    }
  }

  /** Replaying the sweep's lines gives the adapter's picture, up to the alarms that were lost. */
  lemma ReplaySwept(r: Replica, l: seq<Entry>)
    requires Tracks(r, l)
    ensures Replay(r, ChangedLines(l)) == View(l) <==> Lost(r, l) == {}
  {
    if l[0].placeholder {
      ViewLone(l);
      assert ChangedLines(l[1..]) == [];
      if l[0].changed {
        assert ChangedLines(l) == [l[0].value] && [l[0].value][..0] == [];
      }
    } else {
      ReplayCoded(r, l);
    }
  }

  /** A code under which no changed entry was written shows what it showed. */
  lemma Untouched(r: Replica, s: Replica, l: seq<Entry>, c: string)
    requires Overwrites(r, s, l) && forall i | 0 <= i < |l| && l[i].changed :: l[i].value.code != c
    ensures SameAt(r, s, c)
  {
    hide SameAt, AgreesAt;
  }

  lemma WrittenOver(r: Replica, s: Replica, l: seq<Entry>, i: nat)
    requires Tracks(r, l) && Coded(l) && Overwrites(r, s, l) && i < |l|
    ensures AgreesAt(s, l[i].value)
  {
    if !l[i].changed {
      assert AgreesAt(r, l[i].value);
      assert Distinct(l);
      hide AgreesAt, SameAt, Overwrites;
      assert forall j | 0 <= j < |l| && l[j].changed :: l[j].value.code != l[i].value.code;
      Untouched(r, s, l, l[i].value.code);
      SameOtherWay(r, s, l[i].value.code);
      AgreesAsSame(s, r, l[i].value);
    }
  }

  lemma SameOtherWay(r: Replica, s: Replica, c: string)
    requires SameAt(r, s, c)
    ensures SameAt(s, r, c)
  {
  }

  /** A code the client shows after the lines is in the list or was shown before. */
  lemma ShownAfter(r: Replica, s: Replica, l: seq<Entry>, c: string)
    requires Overwrites(r, s, l) && c in Faults(s) && c !in Codes(l)
    ensures c in Faults(r)
  {
    assert forall i | 0 <= i < |l| :: l[i].value.code in Codes(l);
    Untouched(r, s, l, c);
    hide Overwrites, Codes;
  }

  lemma ShownWithin(r: Replica, s: Replica, l: seq<Entry>, c: string)
    requires Overwrites(r, s, l) && c in Faults(s)
    ensures c in Codes(l) || c in Faults(r)
  {
    hide *;
    if c !in Codes(l) {
      ShownAfter(r, s, l, c);
    }
  }

  lemma ShownStill(r: Replica, s: Replica, l: seq<Entry>, c: string)
    requires Overwrites(r, s, l) && c in Faults(r) && c !in Codes(l)
    ensures c in Faults(s)
  {
    assert forall i | 0 <= i < |l| :: l[i].value.code in Codes(l);
    Untouched(r, s, l, c);
    hide Overwrites, Codes;
  }

  lemma CodedView(r: Replica, s: Replica, l: seq<Entry>)
    requires Tracks(r, l) && Coded(l) && Overwrites(r, s, l)
    ensures |l| > 0 && Distinct(l) && View(l) == Active(FaultMap(l)) && Lost(r, l) == Faults(r).Keys - Codes(l)
    ensures s.Active?
  {
    hide FaultMap, AgreesAt, SameAt, Faults, Codes;
  }

  lemma ReplayCoded(r: Replica, l: seq<Entry>)
    requires Tracks(r, l) && Coded(l)
    ensures |l| > 0 && (Replay(r, ChangedLines(l)) == View(l) <==> Lost(r, l) == {})
  {
    var s := Replay(r, ChangedLines(l));
    CodedDistinct(r, l);
    ReplayChanged(r, l);
    hide *;
    CodedView(r, s, l);
    FaultMapAt(l);
    ActiveFaults(s);
    ActiveFaults(Active(FaultMap(l)));
    if Lost(r, l) == {} {
      forall i | 0 <= i < |l|
        ensures AgreesAt(Active(Faults(s)), l[i].value)
      {
        WrittenOver(r, s, l, i);
      }
      forall c | c in Faults(s)
        ensures c in Codes(l)
      {
        ShownWithin(r, s, l, c);
        assert c !in Faults(r).Keys - Codes(l);
      }
      FaultMapIs(l, Faults(s));
    } else {
      var c :| c in Lost(r, l);
      ShownStill(r, s, l, c);
    }
  }

  lemma CodedDistinct(r: Replica, l: seq<Entry>)
    requires Tracks(r, l)
    ensures Distinct(l)
  {
  }

  lemma ActiveFaults(s: Replica)
    ensures s.Active? ==> s == Active(Faults(s)) && Faults(s) == s.faults
  {
  }

  lemma QuietLines(l: seq<Entry>)
    requires !AnyChanged(l)
    ensures ChangedLines(l) == []
  {
    if l != [] { QuietLines(l[1..]); }
  }

  lemma FinishSync(r: Replica, s: State)
    requires Tracks(r, s.list) && s.begun
    ensures Replay(r, FinishLines(s)) == View(Finish(s).list) <==> Lost(r, s.list) == {} || AllStale(s.list)
    ensures Shape(Finish(s).list) && !AnyChanged(Finish(s).list)
  {
    var t := if AllStale(s.list) then Add(s, NormalReport("")) else s;
    if AllStale(s.list) {
      UncodedTracks(r, s, NormalReport(""));
    }
    SweepTracks(r, t.list);
    SweptShape(t.list);
    var m := Sweep(t.list);
    assert !AllStale(m) by {
      var i :| 0 <= i < |t.list| && !Stale(t.list[i]);
      assert !Stale(m[i]);
    }
    ReplaySwept(r, m);
    WrittenView(m);
    if !Prepare(s).changed {
      QuietLines(m);
    }
  }

  // ---- Scans and runs ----------------------------------------------------------------------------

  lemma SyncedTracks(r: Replica, l: seq<Entry>)
    requires Synced(r, l)
    ensures Tracks(r, l) && Lost(r, l) == {}
  {
    FaultMapAt(l);
    if !l[0].placeholder {
      assert forall i | 0 <= i < |l| :: AgreesAt(Active(FaultMap(l)), l[i].value);
    }
  }

  lemma UnmarkTracks(r: Replica, l: seq<Entry>)
    requires Tracks(r, l)
    ensures Tracks(r, Unmark(l)) && Lost(r, Unmark(l)) == Lost(r, l)
  {
    var m := Unmark(l);
    UnmarkFaults(l);
    assert Codes(m) == Codes(l) by {
      assert forall i | 0 <= i < |l| :: m[i].value == l[i].value;
    }
    assert AnyChanged(l) ==> AnyChanged(m) by {
      if AnyChanged(l) {
        var k :| 0 <= k < |l| && l[k].changed;
        assert m[k].changed;
      }
    }
  }

  lemma BeginTracks(r: Replica, s: State)
    requires Synced(r, s.list)
    ensures Tracks(r, Begin(s).list) && Lost(r, Begin(s).list) == {} && Begin(s).begun
  {
    SyncedTracks(r, s.list);
    UnmarkTracks(r, s.list);
  }

  lemma {:induction false} UnmarkFaults(l: seq<Entry>)
    ensures FaultMap(Unmark(l)) == FaultMap(l)
  {
    if l != [] {
      UnmarkFaults(l[1..]);
      assert Unmark(l)[1..] == Unmark(l[1..]);
    }
  }

  lemma {:induction false} GatherTracks(r: Replica, s: State, ops: seq<Op>)
    requires Tracks(r, s.list) && AllLegal(ops)
    ensures Tracks(r, Gather(s, ops).list) && Gather(s, ops).begun == s.begun
    ensures Gather(s, ops).simple == s.simple
  {
    hide *;
    GatherLast(s, ops);
    GatherFlags(s, ops);
    if ops != [] {
      LegalLast(ops);
      GatherTracks(r, s, ops[..|ops| - 1]);
      StepTracks(r, Gather(s, ops[..|ops| - 1]), ops[|ops| - 1]);
    }
  }

  lemma GatherLast(s: State, ops: seq<Op>)
    ensures ops == [] ==> Gather(s, ops) == s
    ensures ops != [] ==> Gather(s, ops) == Step(Gather(s, ops[..|ops| - 1]), ops[|ops| - 1])
  {
    hide Step;
  }

  lemma LegalLast(ops: seq<Op>)
    requires AllLegal(ops) && ops != []
    ensures AllLegal(ops[..|ops| - 1]) && Legal(ops[|ops| - 1])
  {
    hide Legal;
  }

  /** The call takes the branch that empties a cleared list. */
  predicate Drops(l: seq<Entry>, op: Op) {
    op.Assert? && !Uncoded(op.report) && LoneClear(l)
  }

  /** After the call the client is told of code c, or of a clear of everything, when the scan is sent. */
  predicate Tells(l: seq<Entry>, op: Op, c: string) {
    match op
    case Assert(report) => Uncoded(report) || report.code == c
    case Retract(code) => |l| == 1 && l[0].value.code == code
  }

  /** Call k drops a cleared list, and neither it nor any later call tells the client of c. */
  predicate DropsFor(s: State, ops: seq<Op>, c: string, k: nat)
    requires k < |ops|
  {
    Drops(Gather(s, ops[..k]).list, ops[k]) && forall m | k <= m < |ops| :: !Tells(Gather(s, ops[..m]).list, ops[m], c)
  }

  /** An alarm the client shows is dropped in the scan and not mentioned again. */
  predicate ForgottenBy(r: Replica, s: State, ops: seq<Op>, c: string) {
    c in Faults(r) && exists k | 0 <= k < |ops| :: DropsFor(s, ops, c, k)
  }

  predicate NoneForgotten(r: Replica, s: State, ops: seq<Op>) {
    forall c | c in Faults(r) :: !ForgottenBy(r, s, ops, c)
  }

  lemma ForgottenLast(r: Replica, s: State, ops: seq<Op>, c: string)
    ensures ops == [] ==> !ForgottenBy(r, s, ops, c)
    ensures ops != [] ==>
              var n := |ops| - 1;
              var l := Gather(s, ops[..n]).list;
              ForgottenBy(r, s, ops, c) <==>
              !Tells(l, ops[n], c) && ((c in Faults(r) && Drops(l, ops[n])) || ForgottenBy(r, s, ops[..n], c))
  {
    hide Gather, Tells, Drops, Faults;
    if ops != [] {
      var n := |ops| - 1;
      assert forall k | 0 <= k <= n :: ops[..n][..k] == ops[..k];
      assert forall k | 0 <= k < n :: ops[..n][k] == ops[k];
      if ForgottenBy(r, s, ops, c) {
        var k :| 0 <= k < |ops| && DropsFor(s, ops, c, k);
        assert k < n ==> DropsFor(s, ops[..n], c, k);
      }
      if c in Faults(r) && !Tells(Gather(s, ops[..n]).list, ops[n], c) {
        if Drops(Gather(s, ops[..n]).list, ops[n]) {
          assert DropsFor(s, ops, c, n);
        } else if ForgottenBy(r, s, ops[..n], c) {
          var k :| 0 <= k < n && DropsFor(s, ops[..n], c, k);
          assert DropsFor(s, ops, c, k);
        }
      }
    }
  }

  lemma LostStep(r: Replica, l: seq<Entry>, op: Op, c: string)
    requires |l| > 0
    ensures c in LostAfter(r, l, op) <==>
            !Tells(l, op, c) && ((c in Faults(r) && Drops(l, op)) || c in Lost(r, l))
  {
    hide LoneClear;
  }

  /** What can no longer be cleared is just what has been forgotten. */
  lemma {:induction false} LostIsForgotten(r: Replica, s: State, ops: seq<Op>, c: string)
    requires Tracks(r, s.list) && |s.list| > 0 && Lost(r, s.list) == {} && AllLegal(ops)
    ensures |Gather(s, ops).list| > 0
    ensures c in Lost(r, Gather(s, ops).list) <==> ForgottenBy(r, s, ops, c)
  {
    hide *;
    GatherLast(s, ops);
    ForgottenLast(r, s, ops, c);
    if ops != [] {
      var n := |ops| - 1;
      var t := Gather(s, ops[..n]);
      LegalLast(ops);
      GatherTracks(r, s, ops[..n]);
      StepTracks(r, t, ops[n]);
      LostIsForgotten(r, s, ops[..n], c);
      LostStep(r, t.list, ops[n], c);
    }
  }

  lemma LostShown(r: Replica, l: seq<Entry>)
    requires |l| > 0
    ensures Lost(r, l) <= Faults(r).Keys
  {
  }

  lemma NothingLost(r: Replica, s: State, ops: seq<Op>)
    requires Tracks(r, s.list) && |s.list| > 0 && Lost(r, s.list) == {} && AllLegal(ops)
    ensures |Gather(s, ops).list| > 0
    ensures Lost(r, Gather(s, ops).list) == {} <==> NoneForgotten(r, s, ops)
  {
    var l := Gather(s, ops).list;
    hide Gather, Tracks, ForgottenBy, Lost, Faults, AllLegal;
    GatherTracks(r, s, ops);
    TracksShape(r, l);
    LostShown(r, l);
    forall c: string
      ensures c in Lost(r, l) <==> ForgottenBy(r, s, ops, c)
    {
      LostIsForgotten(r, s, ops, c);
    }
  }

  /** The scan keeps a client that was in step in step. */
  predicate KeepsStep(r: Replica, s: State, ops: seq<Op>) {
    NoneForgotten(r, Begin(s), ops) || AllStale(Gather(Begin(s), ops).list)
  }

  /** One scan, any calls in any order: the client agrees again if and only if no alarm it shows was forgotten, or
      nothing is asserted in the end. */
  lemma ScanExact(r: Replica, s: State, ops: seq<Op>)
    requires Synced(r, s.list) && AllLegal(ops)
    ensures Replay(r, ScanLines(s, ops)) == View(Scan(s, ops).list) <==> KeepsStep(r, s, ops)
    ensures Synced(Replay(r, ScanLines(s, ops)), Scan(s, ops).list) <==> KeepsStep(r, s, ops)
  {
    ScanParts(r, s, ops);
    hide *;
    BeginTracks(r, s);
    GatherTracks(r, Begin(s), ops);
    NothingLost(r, Begin(s), ops);
    FinishSync(r, Gather(Begin(s), ops));
  }

  lemma ScanParts(r: Replica, s: State, ops: seq<Op>)
    ensures Scan(s, ops) == Finish(Gather(Begin(s), ops)) && ScanLines(s, ops) == FinishLines(Gather(Begin(s), ops))
    ensures |Gather(Begin(s), ops).list| > 0 ==> (KeepsStep(r, s, ops) <==>
            NoneForgotten(r, Begin(s), ops) || AllStale(Gather(Begin(s), ops).list))
    ensures Synced(r, s.list) ==> |Begin(s).list| > 0
    ensures forall t: Replica, l: seq<Entry> {:trigger Synced(t, l)} ::
              Synced(t, l) <==> Shape(l) && !AnyChanged(l) && t == View(l)
  {
    hide Finish, Gather, FinishLines, NoneForgotten, AllStale, View;
  }

  /** No call of the scan takes the branch that throws an unsent clear away. */
  predicate NoLoss(r: Replica, s: State, ops: seq<Op>) {
    forall k | 0 <= k < |ops| :: !LosesClear(r, Gather(s, ops[..k]).list, ops[k])
  }

  lemma NoLossForgetsNothing(r: Replica, s: State, ops: seq<Op>)
    requires NoLoss(r, s, ops)
    ensures NoneForgotten(r, s, ops)
  {
    forall c | c in Faults(r)
      ensures !ForgottenBy(r, s, ops, c)
    {
      forall k | 0 <= k < |ops|
        ensures DropsFor(s, ops, c, k) ==> LosesClear(r, Gather(s, ops[..k]).list, ops[k])
      {
        if DropsFor(s, ops, c, k) { DropLoses(r, s, ops, c, k); }
      }
      hide DropsFor, LosesClear;
    }
  }

  lemma DropLoses(r: Replica, s: State, ops: seq<Op>, c: string, k: nat)
    requires c in Faults(r) && k < |ops| && DropsFor(s, ops, c, k)
    ensures LosesClear(r, Gather(s, ops[..k]).list, ops[k])
  {
    hide Gather, LoneClear, Faults;
    assert !Tells(Gather(s, ops[..k]).list, ops[k], c);
  }

  /** In particular it agrees if no call throws an unsent clear away. */
  lemma ScanSync(r: Replica, s: State, ops: seq<Op>)
    requires Synced(r, s.list) && AllLegal(ops) && NoLoss(r, Begin(s), ops)
    ensures Synced(Replay(r, ScanLines(s, ops)), Scan(s, ops).list)
  {
    NoLossForgetsNothing(r, Begin(s), ops);
    hide NoneForgotten, NoLoss, Synced, AllLegal, Scan, ScanLines, AllStale;
    ScanExact(r, s, ops);
  }

  /** The adapter and its client after a number of scans. */
  function Run(s: State, scans: seq<seq<Op>>): State {
    if scans == [] then s else Scan(Run(s, scans[..|scans| - 1]), scans[|scans| - 1])
  }

  function Client(r: Replica, s: State, scans: seq<seq<Op>>): Replica {
    if scans == [] then r
    else
      var n := |scans| - 1;
      Replay(Client(r, s, scans[..n]), ScanLines(Run(s, scans[..n]), scans[n]))
  }

  lemma LastScan(r: Replica, s: State, scans: seq<seq<Op>>)
    requires scans != []
    ensures var n := |scans| - 1;
      && Run(s, scans) == Scan(Run(s, scans[..n]), scans[n])
      && Client(r, s, scans) == Replay(Client(r, s, scans[..n]), ScanLines(Run(s, scans[..n]), scans[n]))
  {
    hide Scan, Replay, ScanLines;
  }

  lemma NoScans(r: Replica, s: State)
    ensures Run(s, []) == s && Client(r, s, []) == r
  {
  }

  /** The client agrees with the adapter before the first scan and after each of the scans. */
  predicate InStepThroughout(r: Replica, s: State, scans: seq<seq<Op>>) {
    forall n | 0 <= n <= |scans| :: Synced(Client(r, s, scans[..n]), Run(s, scans[..n]).list)
  }

  /** Scan n keeps a client in step that is in step before it. */
  predicate KeepsStepAt(r: Replica, s: State, scans: seq<seq<Op>>, n: nat)
    requires n < |scans|
  {
    KeepsStep(Client(r, s, scans[..n]), Run(s, scans[..n]), scans[n])
  }

  predicate AllScansLegal(scans: seq<seq<Op>>) {
    forall n | 0 <= n < |scans| :: AllLegal(scans[n])
  }

  /** Every run, any calls in any scan: the client never drifts if and only if no scan forgets an alarm. */
  lemma {:induction false} RunExact(r: Replica, s: State, scans: seq<seq<Op>>)
    requires Synced(r, s.list) && AllScansLegal(scans)
    ensures InStepThroughout(r, s, scans) <==> forall n | 0 <= n < |scans| :: KeepsStepAt(r, s, scans, n)
  {
    hide *;
    NoScans(r, s);
    if scans == [] {
      ThroughoutNone(r, s);
    } else {
      var n := |scans| - 1;
      var init := scans[..n];
      ThroughoutLast(r, s, scans);
      LastScan(r, s, scans);
      RunExact(r, s, init);
      if InStepThroughout(r, s, init) {
        ThroughoutEnd(r, s, init);
        ScanExact(Client(r, s, init), Run(s, init), scans[n]);
      }
    }
  }

  lemma ThroughoutNone(r: Replica, s: State)
    requires Synced(r, s.list)
    ensures InStepThroughout(r, s, [])
  {
    hide Synced;
  }

  lemma ThroughoutEnd(r: Replica, s: State, scans: seq<seq<Op>>)
    requires InStepThroughout(r, s, scans)
    ensures Synced(Client(r, s, scans), Run(s, scans).list)
  {
    assert scans[..|scans|] == scans;
    hide Synced, Client, Run;
  }

  lemma ThroughoutLast(r: Replica, s: State, scans: seq<seq<Op>>)
    requires scans != [] && AllScansLegal(scans)
    ensures var n := |scans| - 1;
      var init := scans[..n];
      && AllScansLegal(init) && AllLegal(scans[n])
      && (InStepThroughout(r, s, scans) <==>
          InStepThroughout(r, s, init) && Synced(Client(r, s, scans), Run(s, scans).list))
      && (KeepsStepAt(r, s, scans, n) <==> KeepsStep(Client(r, s, init), Run(s, init), scans[n]))
      && ((forall k | 0 <= k < |scans| :: KeepsStepAt(r, s, scans, k)) <==>
          (forall k | 0 <= k < n :: KeepsStepAt(r, s, init, k)) && KeepsStepAt(r, s, scans, n))
  {
    hide Synced, Client, Run, AllLegal, KeepsStep;
    var n := |scans| - 1;
    var init := scans[..n];
    assert scans[..|scans|] == scans;
    assert forall k | 0 <= k <= n :: init[..k] == scans[..k];
    assert forall k | 0 <= k < n :: KeepsStepAt(r, s, init, k) <==> KeepsStepAt(r, s, scans, k);
  }

  /** In particular it never drifts if no call of any scan throws an unsent clear away. */
  lemma RunSync(r: Replica, s: State, scans: seq<seq<Op>>)
    requires Synced(r, s.list) && AllScansLegal(scans)
    requires forall n | 0 <= n < |scans| :: NoLoss(Client(r, s, scans[..n]), Begin(Run(s, scans[..n])), scans[n])
    ensures Synced(Client(r, s, scans), Run(s, scans).list)
  {
    forall n | 0 <= n < |scans|
      ensures KeepsStepAt(r, s, scans, n)
    {
      NoLossForgetsNothing(Client(r, s, scans[..n]), Begin(Run(s, scans[..n])), scans[n]);
    }
    hide *;
    RunExact(r, s, scans);
    ThroughoutEnd(r, s, scans);
  }

  // ---- The exact condition for assertions and whole-datum clears -----------------------------------

  /** An alarm under a code, or an uncoded NORMAL or UNAVAILABLE. */
  predicate Plain(op: Op) {
    Legal(op) && op.Assert? && (Clears(op.report.level) ==> op.report.code == "")
  }

  predicate AllPlain(ops: seq<Op>) {
    forall i | 0 <= i < |ops| :: Plain(ops[i])
  }

  datatype Since = Never | Cleared(asserted: set<string>)

  function Next(since: Since, last: Report): Since {
    if Uncoded(last) then Cleared({})
    else
      match since
      case Never => Never
      case Cleared(codes) => Cleared(codes + {last.code})
  }

  /** The codes asserted after the last whole-datum clear of the scan. */
  function SinceClear(ops: seq<Op>): Since
    requires AllPlain(ops)
  {
    if ops == [] then Never else Next(SinceClear(ops[..|ops| - 1]), ops[|ops| - 1].report)
  }

  function Passed(r: Replica, since: Since): set<string> {
    match since
    case Never => {}
    case Cleared(codes) => if codes == {} then {} else Faults(r).Keys - codes
  }

  /** Alarms the client shows at the start of the scan and will go on showing by mistake. */
  function Forgotten(r: Replica, ops: seq<Op>): set<string>
    requires AllPlain(ops)
  {
    Passed(r, SinceClear(ops))
  }

  /** What the list looks like in the middle of a scan, by what has been asserted since the last clear. */
  ghost predicate Standing(r: Replica, l: seq<Entry>, since: Since) {
    && Tracks(r, l) && |l| > 0 && Lost(r, l) == Passed(r, since)
    && match since
       case Never => LoneClear(l) ==> Faults(r) == map[]
       case Cleared(codes) =>
         if codes == {} then l[0].placeholder
         else Codes(l) == codes && !LoneClear(l) && !l[0].placeholder
  }

  lemma StandingStep(r: Replica, s: State, since: Since, op: Op)
    requires Standing(r, s.list, since) && Plain(op)
    ensures Standing(r, Step(s, op).list, Next(since, op.report)) && !AllStale(Step(s, op).list)
  {
    PlainLegal(op.report);
    assert op == Assert(op.report) && Step(s, op) == Add(s, op.report);
    TracksShape(r, s.list);
    StepTracks(r, s, op);
    StepAsserts(s, op.report);
    LostCases(r, s.list, op);
    if Uncoded(op.report) {
      UncodedTracks(r, s, op.report);
    } else if s.list[0].placeholder {
      LonePlaceholder(s.list);
    }
    hide Add, Step, Tracks, Codes, AllStale, LostAfter, Lost, Shape, Faults;
  }

  lemma LonePlaceholder(l: seq<Entry>)
    requires Shape(l) && l[0].placeholder
    ensures LoneClear(l)
  {
  }

  lemma {:induction false} GatherPlain(r: Replica, s: State, ops: seq<Op>)
    requires Tracks(r, s.list) && |s.list| > 0 && Lost(r, s.list) == {} && AllPlain(ops)
    requires LoneClear(s.list) ==> Faults(r) == map[]
    ensures Standing(r, Gather(s, ops).list, SinceClear(ops))
    ensures ops != [] ==> !AllStale(Gather(s, ops).list)
  {
    GatherLast(s, ops);
    if ops != [] {
      var init := ops[..|ops| - 1];
      GatherPlain(r, s, init);
      hide Gather, Standing, Step, AllStale, Next;
      StandingStep(r, Gather(s, init), SinceClear(init), ops[|ops| - 1]);
    }
  }

  lemma StandingLoses(r: Replica, l: seq<Entry>, since: Since)
    requires Standing(r, l, since)
    ensures Tracks(r, l) && |l| > 0 && Lost(r, l) == Passed(r, since)
    ensures since == Never ==> Lost(r, l) == {}
  {
    hide Tracks, Lost, Codes;
  }

  lemma PlacedMarked(s: State, report: Report)
    ensures var l := Place(s, report).list;
      && !AllStale(l)
      && (s.list == [] || Coded(s.list) ==> Find(s.list, report.code) < |s.list| || |l| == |s.list| + 1)
  {
    PlaceCases(s, report);
    var i := Find(s.list, report.code);
    hide SetValue, Find, Codes;
    assert Place(s, report).list[i].marked;
  }

  /** An alarm is not a lone clear. */
  lemma PlacedAlarm(s: State, report: Report)
    requires !Clears(report.level) && !LoneClear(s.list)
    ensures !LoneClear(Place(s, report).list)
  {
    PlaceCases(s, report);
    hide Find, Codes;
  }

  /** The entry an assertion touches is marked; its code joins the list unless the list was emptied. */
  lemma StepAsserts(s: State, report: Report)
    requires Shape(s.list) && Plain(Assert(report))
    ensures !AllStale(Add(s, report).list)
    ensures !Uncoded(report) ==>
              && |Add(s, report).list| > 0
              && !LoneClear(Add(s, report).list) && !Add(s, report).list[0].placeholder
              && Codes(Add(s, report).list) ==
                 (if LoneClear(s.list) then {} else Codes(s.list)) + {report.code}
  {
    if !Uncoded(report) {
      var base := if LoneClear(s.list) then s.(list := []) else s;
      assert Add(s, report) == Place(base, report) && !Clears(report.level) && !LoneClear(base.list);
      NoCodes();
      hide *;
      StepParts(s.list, Assert(report)) by { PlainLegal(report); }
      PlainLegal(report);
      PlaceShape(base, report);
      PlacedMarked(base, report);
      PlacedAlarm(base, report);
      CodedHead(Place(base, report).list);
    } else {
      assert !Stale(Add(s, report).list[0]);
    }
  }

  lemma NoCodes()
    ensures Codes([]) == {}
  {
  }

  lemma PlainLegal(report: Report)
    requires Plain(Assert(report))
    ensures Legal(Assert(report))
  {
  }

  lemma CodedHead(l: seq<Entry>)
    requires Shape(l) && Coded(l)
    ensures |l| > 0 && !l[0].placeholder
  {
  }

  /** One scan of assertions and whole-datum clears, in any order: the client agrees afterwards if and
      only if no alarm it shows was cleared and then passed over by later assertions. */
  lemma PlainScanExact(r: Replica, s: State, ops: seq<Op>)
    requires Synced(r, s.list) && AllPlain(ops)
    ensures Replay(r, ScanLines(s, ops)) == View(Scan(s, ops).list) <==> Forgotten(r, ops) == {}
    ensures Forgotten(r, ops) == {} ==> Synced(Replay(r, ScanLines(s, ops)), Scan(s, ops).list)
  {
    BeginTracks(r, s);
    var b := Begin(s);
    if LoneClear(b.list) {
      assert FaultMap(s.list[1..]) == map[];
      assert Faults(r) == map[];
    }
    GatherPlain(r, b, ops);
    GatherTracks(r, b, ops);
    StandingLoses(r, Gather(b, ops).list, SinceClear(ops));
    FinishSync(r, Gather(b, ops));
  }

  /** Alarms first, and at most one whole-datum clear, as the last call. */
  predicate Disciplined(ops: seq<Op>) {
    AllPlain(ops) && forall i | 0 <= i < |ops| - 1 :: !Uncoded(ops[i].report)
  }

  lemma {:induction false} DisciplinedForgetsNothing(r: Replica, ops: seq<Op>)
    requires Disciplined(ops)
    ensures Forgotten(r, ops) == {}
    ensures (forall i | 0 <= i < |ops| :: !Uncoded(ops[i].report)) ==> SinceClear(ops) == Never
  {
    if ops != [] {
      DisciplinedForgetsNothing(r, ops[..|ops| - 1]);
    }
  }

  lemma DisciplinedIsPlain(ops: seq<Op>)
    requires Disciplined(ops)
    ensures AllPlain(ops)
  {
  }

  /** Every run of disciplined scans, of any number and size, keeps the client in step. */
  lemma {:induction false} DisciplinedRun(r: Replica, s: State, scans: seq<seq<Op>>)
    requires Synced(r, s.list)
    requires forall n | 0 <= n < |scans| :: Disciplined(scans[n])
    ensures Synced(Client(r, s, scans), Run(s, scans).list)
  {
    hide *;
    NoScans(r, s);
    if scans != [] {
      var n := |scans| - 1;
      LastScan(r, s, scans);
      assert forall k | 0 <= k < n :: scans[..n][k] == scans[k];
      DisciplinedRun(r, s, scans[..n]);
      DisciplinedIsPlain(scans[n]);
      DisciplinedForgetsNothing(Client(r, s, scans[..n]), scans[n]);
      PlainScanExact(Client(r, s, scans[..n]), Run(s, scans[..n]), scans[n]);
    }
  }

  // ---- What the list holds after a scan ------------------------------------------------------------

  /** The last report asserted under each code. */
  function LastValues(ops: seq<Op>): map<string, Report>
    requires AllPlain(ops)
  {
    if ops == [] then map[]
    else LastValues(ops[..|ops| - 1])[ops[|ops| - 1].report.code := ClipReport(ops[|ops| - 1].report)]
  }

  predicate AllAlarms(ops: seq<Op>) {
    AllPlain(ops) && forall i | 0 <= i < |ops| :: !Uncoded(ops[i].report)
  }

  /** The marked entries are exactly the last values asserted so far. */
  predicate MarkedAre(l: seq<Entry>, m: map<string, Report>) {
    && (forall i | 0 <= i < |l| && l[i].marked ::
          !Clears(l[i].value.level) && l[i].value.code in m && m[l[i].value.code] == l[i].value)
    && (forall c | c in m :: exists i | 0 <= i < |l| :: l[i].marked && l[i].value.code == c)
  }

  lemma PlaceMarks(s: State, report: Report, m: map<string, Report>)
    requires s.list == [] || (Shape(s.list) && Coded(s.list))
    requires Plain(Assert(report)) && !Uncoded(report) && MarkedAre(s.list, m)
    ensures MarkedAre(Place(s, report).list, m[report.code := ClipReport(report)])
  {
    var l, i := s.list, Find(s.list, report.code);
    if i < |l| {
      MarksAt(l, l[i := SetValue(l[i], report).(marked := true)], i, ClipReport(report), m);
    } else {
      MarksAt(l, l + [NewEntry(report)], i, ClipReport(report), m);
    }
  }

  lemma MarksAt(l: seq<Entry>, t: seq<Entry>, i: nat, v: Report, m: map<string, Report>)
    requires MarkedAre(l, m) && Distinct(t) && i < |t| && |l| <= |t| <= |l| + 1 && (i < |l| ==> |t| == |l|)
    requires forall k | 0 <= k < |t| && k != i :: k < |l| && t[k] == l[k]
    requires i < |l| ==> l[i].value.code == v.code
    requires t[i].marked && t[i].value == v && !Clears(v.level)
    ensures MarkedAre(t, m[v.code := v])
  {
    forall c | c in m && c != v.code
      ensures exists k | 0 <= k < |t| :: t[k].marked && t[k].value.code == c
    {
      var k :| 0 <= k < |l| && l[k].marked && l[k].value.code == c;
      assert t[k] == l[k];
    }
  }

  lemma {:induction false} GatherMarks(s: State, ops: seq<Op>)
    requires Shape(s.list) && AllAlarms(ops) && (forall i | 0 <= i < |s.list| :: !s.list[i].marked)
    ensures Shape(Gather(s, ops).list) && MarkedAre(Gather(s, ops).list, LastValues(ops))
    ensures ops != [] ==> !LoneClear(Gather(s, ops).list)
  {
    if ops != [] {
      var init, report := ops[..|ops| - 1], ops[|ops| - 1].report;
      GatherMarks(s, init);
      var t := Gather(s, init);
      StepShape(t, ops[|ops| - 1]);
      StepAsserts(t, report);
      var base := if LoneClear(t.list) then t.(list := []) else t;
      if LoneClear(t.list) {
        assert init == [];
      }
      PlaceMarks(base, report, LastValues(init));
    }
  }

  /** The alarms left by a sweep are the marked ones. */
  lemma SweptFaults(l: seq<Entry>, m: map<string, Report>)
    requires Shape(l) && Coded(l) && MarkedAre(l, m)
    ensures FaultMap(Sweep(l)) == m
  {
    SweptShape(l);
    var t := Sweep(l);
    assert Coded(t);
    forall i | 0 <= i < |t|
      ensures AgreesAt(Active(m), t[i].value)
    {
      assert l[i].marked <==> l[i].value.code in m;
    }
    forall c | c in m
      ensures c in Codes(t)
    {
      var k :| 0 <= k < |l| && l[k].marked && l[k].value.code == c;
      assert t[k].value.code == c;
    }
    FaultMapIs(t, m);
  }

  /** A scan that asserts alarms leaves exactly those alarms, with the values asserted last. */
  lemma ScanHoldsAsserted(s: State, ops: seq<Op>)
    requires Shape(s.list) && !s.simple && AllAlarms(ops) && ops != []
    ensures View(Scan(s, ops).list) == Active(LastValues(ops))
  {
    UnmarkShape(s.list);
    GatherFlags(Begin(s), ops);
    GatherMarks(Begin(s), ops);
    var t := Gather(Begin(s), ops);
    var c := ops[|ops| - 1].report.code;
    assert c in LastValues(ops);
    var i :| 0 <= i < |t.list| && t.list[i].marked && t.list[i].value.code == c;
    assert t.list[0].placeholder ==> LoneClear(t.list);
    FinishMarked(t, i, LastValues(ops));
  }

  lemma FinishMarked(t: State, i: nat, m: map<string, Report>)
    requires t.begun && Shape(t.list) && Coded(t.list) && MarkedAre(t.list, m)
    requires i < |t.list| && t.list[i].marked
    ensures View(Finish(t).list) == Active(m)
  {
    assert !Stale(t.list[i]);
    SweptFaults(t.list, m);
    SweptShape(t.list);
    assert !Stale(Sweep(t.list)[i]);
    WrittenView(Sweep(t.list));
  }

  lemma UnmarkShape(l: seq<Entry>)
    requires Shape(l)
    ensures Shape(Unmark(l))
  {
  }

  lemma {:induction false} GatherFlags(s: State, ops: seq<Op>)
    ensures Gather(s, ops).begun == s.begun && Gather(s, ops).simple == s.simple
  {
    hide *;
    GatherLast(s, ops);
    if ops != [] {
      GatherFlags(s, ops[..|ops| - 1]);
      StepFlags(Gather(s, ops[..|ops| - 1]), ops[|ops| - 1]);
    }
  }

  lemma StepFlags(s: State, op: Op)
    ensures Step(s, op).begun == s.begun && Step(s, op).simple == s.simple
  {
    hide SetValue, NewEntry, Find, LoneClear, AlreadyIn, Uncoded;
  }

  /** A scan that asserts nothing leaves a lone placeholder, and UNAVAILABLE only if it was so before. */
  lemma ScanOfNothing(s: State)
    requires Shape(s.list) && !s.simple
    ensures var l := Scan(s, []).list;
      |l| == 1 && l[0].placeholder
      && View(l) == if AlreadyIn(s.list, Unavailable) then Down else Active(map[])
  {
    var b := Begin(s);
    UnmarkShape(s.list);
    var t := if AllStale(b.list) then Add(b, NormalReport("")) else b;
    if s.list[0].placeholder {
      assert !Stale(b.list[0]);
    } else {
      assert AllStale(b.list);
    }
    assert |t.list| == 1 && t.list[0].placeholder && Uncoded(t.list[0].value);
    assert Sweep(t.list) == t.list + Sweep([]);
    assert Written(t.list) == [t.list[0].(changed := false)] + Written([]);
    ViewLone(Scan(s, []).list);
  }

  /** A scan that ends by clearing the whole datum leaves the lone placeholder of that level. */
  lemma ScanEndingClear(s: State, ops: seq<Op>)
    requires Shape(s.list) && AllPlain(ops) && ops != [] && Uncoded(ops[|ops| - 1].report)
    ensures var l := Scan(s, ops).list;
      |l| == 1 && l[0].placeholder && l[0].value == Report(ops[|ops| - 1].report.level, "", "", "", "")
  {
    var init, b := ops[..|ops| - 1], Begin(s);
    GatherShape(b, init);
    GatherFlags(b, ops);
    var t := Gather(b, ops);
    assert |t.list| == 1 && t.list[0].placeholder && t.list[0].marked;
    assert !Stale(t.list[0]);
    assert Sweep(t.list) == t.list + Sweep([]);
    assert Written(t.list) == [t.list[0].(changed := false)] + Written([]);
  }

  /** Any calls keep the shape. */
  lemma {:induction false} GatherShape(s: State, ops: seq<Op>)
    requires Shape(s.list) && AllLegal(ops)
    ensures Shape(Gather(s, ops).list)
  {
    if ops != [] {
      GatherShape(s, ops[..|ops| - 1]);
      StepShape(Gather(s, ops[..|ops| - 1]), ops[|ops| - 1]);
    }
  }

  /** Some client tracks any list in shape: the one that shows what the list holds. */
  lemma ViewTracks(l: seq<Entry>)
    requires Shape(l)
    ensures Tracks(View(l), l)
  {
    FaultMapAt(l);
    if !l[0].placeholder {
      assert forall i | 0 <= i < |l| :: AgreesAt(Active(FaultMap(l)), l[i].value);
      assert View(l) == Active(FaultMap(l));
    }
  }

  /** A whole scan, with its sweep and the removal of what was swept, keeps the shape and leaves no flag. */
  lemma ScanShape(s: State, ops: seq<Op>)
    requires Shape(s.list) && AllLegal(ops)
    ensures Shape(Scan(s, ops).list) && !AnyChanged(Scan(s, ops).list)
    ensures !Scan(s, ops).begun
  {
    ScanParts(View(s.list), s, ops);
    BeginShape(s);
    FinishFlags(Gather(Begin(s), ops));
    hide *;
    GatherShape(Begin(s), ops);
    GatherFlags(Begin(s), ops);
    var t := Gather(Begin(s), ops);
    ViewTracks(t.list);
    FinishSync(View(t.list), t);
  }

  lemma BeginShape(s: State)
    requires Shape(s.list)
    ensures Shape(Begin(s).list) && Begin(s).begun
  {
    UnmarkShape(s.list);
  }

  lemma FinishFlags(s: State)
    ensures !Finish(s).begun
  {
  }

  /** Every reachable list is non-empty, has distinct codes, and holds a placeholder only alone. */
  lemma {:induction false} RunShape(s: State, scans: seq<seq<Op>>)
    requires Shape(s.list) && AllScansLegal(scans)
    ensures Shape(Run(s, scans).list)
    ensures scans != [] ==> !AnyChanged(Run(s, scans).list) && !Run(s, scans).begun
  {
    if scans != [] {
      var init := scans[..|scans| - 1];
      hide Shape, Scan, AnyChanged, AllLegal;
      RunShape(s, init);
      ScanShape(Run(s, init), scans[|scans| - 1]);
    }
  }

  // ---- First contact -------------------------------------------------------------------------------

  lemma {:induction false} ReplayAppend(r: Replica, a: seq<Report>, b: seq<Report>)
    ensures Replay(r, a + b) == Replay(Replay(r, a), b)
    decreases |b|
  {
    if b == [] {
      assert a + b == a;
    } else {
      var n := |b| - 1;
      assert (a + b)[..|a| + n] == a + b[..n];
      ReplayAppend(r, a, b[..n]);
    }
  }

  lemma {:induction false} ReplayAll(r: Replica, l: seq<Entry>)
    requires Distinct(l) && Coded(l)
    ensures var s := Replay(r, AllLines(l));
      && (forall i | 0 <= i < |l| :: AgreesAt(s, l[i].value))
      && (forall c: string | c !in Codes(l) :: SameAt(r, s, c))
      && (l != [] || r.Active? ==> s.Active?)
    decreases |l|
  {
    if l != [] {
      var t, q := l[1..], Apply(r, l[0].value);
      FirstLineFirst(r, l);
      ReplayAll(q, t);
      ApplyAt(r, l[0].value);
      assert forall i | 0 < i < |l| :: l[i] == t[i - 1];
      var s := Replay(r, AllLines(l));
      CodesCons(l);
      hide Apply, Replay, Faults, AgreesAt, AllLines, Codes;
      AgreesIfSame(s, q, l[0].value);
      forall i | 0 <= i < |l|
        ensures AgreesAt(s, l[i].value)
      {
        if i > 0 {
          assert AgreesAt(s, t[i - 1].value);
        }
      }
      forall c: string | c !in Codes(l)
        ensures SameAt(r, s, c)
      {
        assert SameAt(q, s, c) && SameAt(q, r, c);
        SameRound(q, r, s, c);
      }
    }
  }

  lemma FirstLineFirst(r: Replica, l: seq<Entry>)
    requires l != []
    ensures Replay(r, AllLines(l)) == Replay(Apply(r, l[0].value), AllLines(l[1..]))
  {
    assert [l[0].value][..0] == [] && Replay(r, [l[0].value]) == Apply(r, l[0].value);
    assert AllLines(l) == [l[0].value] + AllLines(l[1..]);
    ReplayAppend(r, [l[0].value], AllLines(l[1..]));
  }

  lemma CodesCons(l: seq<Entry>)
    requires l != [] && Distinct(l)
    ensures Codes(l) == {l[0].value.code} + Codes(l[1..]) && l[0].value.code !in Codes(l[1..])
  {
    var t := l[1..];
    assert forall i | 0 < i < |l| :: l[i] == t[i - 1];
  }

  lemma AgreesIfSame(s: Replica, q: Replica, v: Report)
    requires SameAt(q, s, v.code) && AgreesAt(q, v)
    ensures AgreesAt(s, v)
  {
  }

  lemma SameRound(q: Replica, r: Replica, s: Replica, c: string)
    requires SameAt(q, s, c) && SameAt(q, r, c)
    ensures SameAt(r, s, c)
  {
  }

  lemma {:induction false} PrintedFaults(l: seq<Entry>)
    ensures FaultMap(Printed(l)) == FaultMap(l) && |Printed(l)| == |l|
    ensures forall i | 0 <= i < |l| :: Printed(l)[i] == l[i].(changed := false)
  {
    if l != [] {
      PrintedFaults(l[1..]);
      assert Printed(l)[1..] == Printed(l[1..]);
    }
  }

  lemma PrintedShape(l: seq<Entry>)
    requires Shape(l)
    ensures Shape(Printed(l)) && !AnyChanged(Printed(l)) && View(Printed(l)) == View(l)
  {
    PrintedFaults(l);
    hide FaultMap, Printed;
  }

  lemma FirstContactLone(l: seq<Entry>)
    requires |l| == 1 && Bare(l[0].value)
    ensures Replay(Down, AllLines(l)) == View(l)
  {
    ViewLone(l);
    FirstLineFirst(Down, l);
    assert AllLines(l[1..]) == [];
  }

  lemma FirstContactCoded(l: seq<Entry>)
    requires Shape(l) && Coded(l)
    ensures Replay(Down, AllLines(l)) == View(l)
  {
    ReplayAll(Down, l);
    var s := Replay(Down, AllLines(l));
    forall c | c in Faults(s)
      ensures c in Codes(l)
    {
      assert c !in Codes(l) ==> SameAt(Down, s, c);
    }
    hide Replay, AllLines, FaultMap, Codes, AgreesAt;
    FaultMapIs(l, Faults(s));
  }

  /** Outside a scan every entry is written: a client that knows nothing starts in step. */
  lemma FirstContact(s: State)
    requires Shape(s.list) && !s.begun
    ensures Synced(Replay(Down, AppendLines(s)), Append(s).list)
  {
    PrintedShape(s.list);
    hide Replay, AllLines, View, Printed, AnyChanged;
    if s.list[0].placeholder {
      FirstContactLone(s.list);
    } else {
      FirstContactCoded(s.list);
    }
  }

  // ---- Where the discipline is needed --------------------------------------------------------------

  /** The smallest scan that leaves a client wrong: clear everything, then raise another alarm. */
  lemma ClearThenAlarm(a: Report, b: Report)
    requires a.level.Fault? && b.level.Fault? && Fits(a) && Fits(b) && a.code != b.code && "" !in {a.code, b.code}
    ensures var s := State([Entry(a, false, true, false)], false, false, false, false);
            var ops := [Assert(NormalReport("")), Assert(b)];
            var r := Active(map[a.code := a]);
      Synced(r, s.list) && AllPlain(ops) && Replay(r, ScanLines(s, ops)) != View(Scan(s, ops).list)
  {
    var s := State([Entry(a, false, true, false)], false, false, false, false);
    var ops := [Assert(NormalReport("")), Assert(b)];
    var r := Active(map[a.code := a]);
    assert FaultMap(s.list[1..]) == map[];
    assert ops[..1] == [ops[0]] && ops[..1][..0] == [];
    assert SinceClear(ops[..0]) == Never && SinceClear(ops[..1]) == Cleared({});
    assert SinceClear(ops) == Cleared({} + {b.code});
    assert a.code in Forgotten(r, ops);
    PlainScanExact(r, s, ops);
  }

  /** A code stays unique when it is asserted again exactly if it fits the buffer. */
  lemma RepeatKeepsDistinct(s: State, report: Report)
    requires Shape(s.list) && !Clears(report.level) && report.code != ""
    ensures Distinct(Add(Add(s, report), report).list) <==> |report.code| < EVENT_VALUE_LEN
  {
    var t := Add(s, report);
    var base := if LoneClear(s.list) then s.(list := []) else s;
    if |report.code| < EVENT_VALUE_LEN {
      PlaceShape(base, report);
      StepShape(s, Assert(report));
      StepShape(t, Assert(report));
    } else {
      assert Find(base.list, report.code) == |base.list|;
      assert t.list == base.list + [NewEntry(report)] && Find(t.list, report.code) == |t.list|;
      var u := Add(t, report);
      assert u.list == t.list + [NewEntry(report)];
      assert u.list[|base.list|] == u.list[|t.list|] == NewEntry(report);
    }
  }

  lemma {:induction false} ChangedLinesAppend(a: seq<Entry>, b: seq<Entry>)
    ensures ChangedLines(a + b) == ChangedLines(b) + ChangedLines(a)
  {
    if a == [] {
      assert a + b == b;
    } else {
      assert (a + b)[1..] == a[1..] + b;
      ChangedLinesAppend(a[1..], b);
    }
  }

  /** An alarm with an empty code, once swept, is written as a clear of the whole datum. The client still
      ends up right exactly when every other alarm is written again after it. */
  lemma SweptUncodedAlarm(r: Replica, l: seq<Entry>, i: nat)
    requires Distinct(l) && i < |l| && l[i].value == NormalReport("") && l[i].changed
    requires forall j | 0 <= j < |l| && j != i :: !l[j].placeholder && l[j].value.code != ""
    ensures Replay(r, ChangedLines(l)) == Active(FaultMap(l)) <==>
            forall j | 0 <= j < |l| && !Clears(l[j].value.level) :: l[j].changed && j < i
  {
    var a := l[..i];
    var s := Replay(Active(map[]), ChangedLines(a));
    ReplaySplit(r, l, i);
    PrefixIsCoded(l, i);
    ReplayChanged(Active(map[]), a);
    FaultMapAt(l);
    hide ChangedLines, Replay, FaultMap, Overwrites, Codes, AgreesAt;
    forall j | 0 <= j < |l|
      ensures AgreesAt(s, l[j].value) <==> (Clears(l[j].value.level) || (l[j].changed && j < i))
    {
      EarlierAgree(l, i, s, j);
    }
    ActiveAfter(a, s);
    if forall j | 0 <= j < |l| && !Clears(l[j].value.level) :: l[j].changed && j < i {
      FaultsWithin(Active(map[]), a, l);
      FaultMapIs(l, Faults(s));
    }
  }

  /** The list holds an alarm with an empty code that was not asserted again, and others that have codes. */
  predicate HoldsUncodedAlarm(l: seq<Entry>, i: nat) {
    && Distinct(l) && i < |l| && l[i].value.code == "" && !Clears(l[i].value.level) && Stale(l[i])
    && forall j | 0 <= j < |l| && j != i :: !l[j].placeholder && 0 < |l[j].value.code| < EVENT_VALUE_LEN
  }

  /** Every other alarm that was asserted again is written, and after the clear: in front of it in the list. */
  predicate WrittenAgain(l: seq<Entry>, i: nat) {
    forall j | 0 <= j < |l| && j != i && l[j].marked && !Clears(l[j].value.level) :: l[j].changed && j < i
  }

  lemma SweptUncodedList(l: seq<Entry>, i: nat)
    requires HoldsUncodedAlarm(l, i)
    ensures var m := Sweep(l);
      && |m| == |l| && Distinct(m) && m[i].value == NormalReport("") && m[i].changed && m[i].placeholder
      && (forall j | 0 <= j < |m| && j != i :: !m[j].placeholder && m[j].value.code != "")
      && ((forall j | 0 <= j < |m| && !Clears(m[j].value.level) :: m[j].changed && j < i) <==> WrittenAgain(l, i))
      && (forall j | 0 <= j < |m| && Stale(m[j]) :: Clears(m[j].value.level))
      && AnyChanged(m) && !Stale(m[i])
  {
    var m := Sweep(l);
    assert forall j | 0 <= j < |l| :: m[j].value.code == l[j].value.code;
    assert forall j | 0 <= j < |l| && l[j].marked :: m[j] == l[j];
    assert forall j | 0 <= j < |l| && j != i && !l[j].marked :: Clears(m[j].value.level);
  }

  /** A scan that does not assert an alarm with an empty code again, but asserts something: the sweep turns that alarm
      into a clear of everything, and the client ends up right exactly when every other alarm is written after it. */
  lemma SweptUncodedScan(r: Replica, s: State, i: nat)
    requires s.begun && !AllStale(s.list) && HoldsUncodedAlarm(s.list, i)
    ensures Replay(r, FinishLines(s)) == View(Finish(s).list) <==> WrittenAgain(s.list, i)
  {
    var l, m := s.list, Sweep(s.list);
    var k :| 0 <= k < |l| && !Stale(l[k]);
    SweptUncodedList(l, i);
    assert !Stale(m[k]);
    WrittenFaults(m);
    WrittenTwo(m, i, k);
    assert Prepare(s).changed && FinishLines(s) == ChangedLines(m) && Finish(s).list == Written(m);
    hide *;
    SweptUncodedAlarm(r, m, i);
    ViewOfSeveral(Written(m));
  }

  /** Such a scan can be reached: an alarm with an empty code and another are raised, and then only the other. The
      client has lost it, while the adapter still holds it. */
  lemma UncodedAlarmSwept(a: Report, b: Report)
    requires a.level.Fault? && b.level.Fault? && Fits(a) && Fits(b) && a.code == "" && b.code != ""
    ensures var s := State([Entry(Report(Unavailable, "", "", "", ""), false, true, true)], false, false, false, false);
            var scans := [[Assert(a), Assert(b)], [Assert(b)]];
      && Synced(Down, s.list)
      && Client(Down, s, scans) == Active(map[]) && View(Run(s, scans).list) == Active(map[b.code := b])
  {
    var s := State([Entry(Report(Unavailable, "", "", "", ""), false, true, true)], false, false, false, false);
    var scans := [[Assert(a), Assert(b)], [Assert(b)]];
    var t := State([Entry(a, false, true, false), Entry(b, false, true, false)], true, false, false, false);
    var r := Active(map["" := a, b.code := b]);
    assert Synced(Down, s.list);
    hide *;
    assert scans[..1] == [scans[0]] && scans[..1][..0] == [] && scans[1] == [Assert(b)];
    BothRaised(s, t, r, a, b);
    OneRaised(t, r, a, b);
    LastScan(Down, s, scans);
    LastScan(Down, s, scans[..1]);
    NoScans(Down, s);
  }

  lemma BothRaised(s: State, t: State, r: Replica, a: Report, b: Report)
    requires a.level.Fault? && b.level.Fault? && Fits(a) && Fits(b) && a.code == "" && b.code != ""
    requires s == State([Entry(Report(Unavailable, "", "", "", ""), false, true, true)], false, false, false, false)
    requires t == State([Entry(a, false, true, false), Entry(b, false, true, false)], true, false, false, false)
    requires r == Active(map["" := a, b.code := b])
    ensures Scan(s, [Assert(a), Assert(b)]) == t && Replay(Down, ScanLines(s, [Assert(a), Assert(b)])) == r
  {
    var ops := [Assert(a), Assert(b)];
    BothGathered(s, a, b);
    BothSent(Gather(Begin(s), ops), t, r, a, b);
    hide Gather, Begin, Finish, FinishLines, Replay;
  }

  lemma FirstRaised(s: State, a: Report)
    requires LoneClear(s.list) && !Clears(a.level)
    ensures Add(s, a) == s.(list := [NewEntry(a)], changed := true)
  {
    assert [] + [NewEntry(a)] == [NewEntry(a)];
    hide NewEntry;
  }

  lemma SecondRaised(s: State, e: Entry, b: Report)
    requires s.list == [e] && !Clears(e.value.level) && !Clears(b.level) && e.value.code != b.code
    ensures Add(s, b) == s.(list := [e, NewEntry(b)], changed := true)
  {
    assert [e][1..] == [] && [e] + [NewEntry(b)] == [e, NewEntry(b)];
    assert Find([e], b.code) == 1;
    hide NewEntry, Find;
  }

  /** An alarm that fits is held as it is reported. */
  lemma RaisedEntry(a: Report)
    requires Fits(a) && a.level.Fault?
    ensures NewEntry(a) == Entry(a, true, true, false)
  {
  }

  lemma BothGathered(s: State, a: Report, b: Report)
    requires a.level.Fault? && b.level.Fault? && a.code == "" && b.code != "" && Fits(a) && Fits(b)
    requires s == State([Entry(Report(Unavailable, "", "", "", ""), false, true, true)], false, false, false, false)
    ensures Gather(Begin(s), [Assert(a), Assert(b)])
            == State([Entry(a, true, true, false), Entry(b, true, true, false)], true, true, false, false)
  {
    var ops := [Assert(a), Assert(b)];
    var g := Begin(s);
    var one := g.(list := [NewEntry(a)], changed := true);
    assert LoneClear(g.list) && g.begun && !g.prepared && !g.simple;
    assert ops[..1] == [ops[0]] && ops[..1][..0] == [];
    RaisedEntry(a);
    RaisedEntry(b);
    hide Begin, Gather, NewEntry, LoneClear, Add, Unmark;
    FirstRaised(g, a);
    SecondRaised(one, NewEntry(a), b);
    GatherLast(g, ops);
    GatherLast(g, ops[..1]);
    GatherLast(g, []);
  }

  /** Two entries that are marked and changed are written, last first, and kept. */
  lemma TwoWritten(e: Entry, f: Entry)
    requires e.marked && f.marked && e.changed && f.changed
    ensures ChangedLines([e, f]) == [f.value, e.value]
    ensures Written([e, f]) == [e.(changed := false), f.(changed := false)]
    ensures Sweep([e, f]) == [e, f] && !AllStale([e, f]) && AnyChanged([e, f])
  {
    var l := [e, f];
    assert l[1..] == [f] && l[1..][1..] == [] && !Stale(l[0]) && !Stale(f);
    assert ChangedLines(l[1..][1..]) == [] && Written(l[1..][1..]) == [];
    assert ChangedLines(l[1..]) == [f.value];
    assert Written(l[1..]) == [f.(changed := false)] + [];
    assert !Stale(l[0]) && l[0].changed;
  }

  lemma BothSent(g: State, t: State, r: Replica, a: Report, b: Report)
    requires b.code != "" && a.level.Fault? && b.level.Fault? && a.code == ""
    requires g == State([Entry(a, true, true, false), Entry(b, true, true, false)], true, true, false, false)
    requires t == State([Entry(a, false, true, false), Entry(b, false, true, false)], true, false, false, false)
    requires r == Active(map["" := a, b.code := b])
    ensures Finish(g) == t && Replay(Down, FinishLines(g)) == r
  {
    TwoWritten(g.list[0], g.list[1]);
    assert g.list == [g.list[0], g.list[1]];
    TwoReplayed(a, b);
    hide ChangedLines, Written, Sweep, AllStale, AnyChanged, Replay;
  }

  lemma TwoReplayed(a: Report, b: Report)
    requires b.code != "" && a.level.Fault? && b.level.Fault? && a.code == ""
    ensures Replay(Down, [b, a]) == Active(map["" := a, b.code := b])
  {
    assert [b, a][..1] == [b] && [b][..0] == [];
    assert Replay(Down, [b]) == Active(map[b.code := b]);
  }

  lemma OneRaised(t: State, r: Replica, a: Report, b: Report)
    requires a.level.Fault? && b.level.Fault? && Fits(a) && Fits(b) && a.code == "" && b.code != ""
    requires t == State([Entry(a, false, true, false), Entry(b, false, true, false)], true, false, false, false)
    requires r == Active(map["" := a, b.code := b])
    ensures Replay(r, ScanLines(t, [Assert(b)])) == Active(map[])
    ensures View(Scan(t, [Assert(b)]).list) == Active(map[b.code := b])
  {
    var ops := [Assert(b)];
    var l := [Entry(a, false, false, false), Entry(b, false, true, false)];
    var blank := Entry(NormalReport(""), true, false, true);
    var m := [blank, Entry(b, false, true, false)];
    assert ops[..0] == [];
    assert Begin(t).list[1..][0] == Entry(b, false, false, false);
    assert Find(Begin(t).list, b.code) == 1;
    assert Gather(Begin(t), ops).list == l;
    assert !Stale(l[1]) && Sweep(l) == m;
    assert m[1..] == [m[1]] && m[1..][1..] == [];
    assert m[0].changed;
    assert ChangedLines(m[1..]) == [] && ChangedLines(m) == [NormalReport("")];
    assert [NormalReport("")][..0] == [];
    assert Written(m[1..]) == [m[1]] && Written(m) == [blank.(changed := false), m[1]];
    var w := Written(m);
    assert w[1..] == [m[1]] && w[1..][1..] == [];
    assert FaultMap(w[1..]) == map[b.code := b];
  }

  lemma ViewOfSeveral(l: seq<Entry>)
    requires |l| > 1
    ensures View(l) == Active(FaultMap(l))
  {
  }

  lemma {:induction false} WrittenSome(l: seq<Entry>, i: nat)
    requires i < |l| && !Stale(l[i])
    ensures |Written(l)| > 0
  {
    if i > 0 { WrittenSome(l[1..], i - 1); }
  }

  lemma {:induction false} WrittenTwo(l: seq<Entry>, i: nat, k: nat)
    requires i < |l| && k < |l| && i != k && !Stale(l[i]) && !Stale(l[k])
    ensures |Written(l)| > 1
  {
    if i == 0 {
      WrittenSome(l[1..], k - 1);
    } else if k == 0 {
      WrittenSome(l[1..], i - 1);
    } else {
      WrittenTwo(l[1..], i - 1, k - 1);
    }
  }

  lemma ActiveAfter(a: seq<Entry>, s: Replica)
    requires Overwrites(Active(map[]), s, a)
    ensures s.Active? && s == Active(Faults(s))
  {
    hide SameAt, AgreesAt;
  }

  lemma PrefixIsCoded(l: seq<Entry>, i: nat)
    requires Distinct(l) && i < |l|
    requires forall j | 0 <= j < |l| && j != i :: !l[j].placeholder && l[j].value.code != ""
    ensures Distinct(l[..i]) && Coded(l[..i])
  {
  }

  /** What the lines of the entries in front of i have told a client that showed nothing. */
  lemma EarlierAgree(l: seq<Entry>, i: nat, s: Replica, j: nat)
    requires Distinct(l) && i < |l| && Overwrites(Active(map[]), s, l[..i]) && j < |l|
    ensures AgreesAt(s, l[j].value) <==> (Clears(l[j].value.level) || (l[j].changed && j < i))
  {
    var a := l[..i];
    assert forall k | 0 <= k < |a| :: a[k] == l[k];
    if l[j].changed && j < i {
      assert AgreesAt(s, a[j].value);
    } else {
      assert forall k | 0 <= k < |a| && a[k].changed :: a[k].value.code != l[j].value.code;
      Untouched(Active(map[]), s, a, l[j].value.code);
    }
    hide Overwrites;
  }

  /** Replaying a part of a list on a client that shows nothing brings up no other code. */
  lemma FaultsWithin(r: Replica, a: seq<Entry>, l: seq<Entry>)
    requires Distinct(a) && Coded(a) && Faults(r) == map[] && |a| <= |l| && a == l[..|a|]
    ensures Faults(Replay(r, ChangedLines(a))).Keys <= Codes(l)
  {
    ReplayChanged(r, a);
    var s := Replay(r, ChangedLines(a));
    assert forall k | 0 <= k < |a| :: l[k] == a[k] && l[k].value.code in Codes(l);
    assert Codes(a) <= Codes(l);
    hide Replay, ChangedLines, Overwrites, Codes;
    forall c | c in Faults(s)
      ensures c in Codes(l)
    {
      if c !in Codes(a) {
        ShownAfter(r, s, a, c);
      }
    }
  }

  /** Lines written before a whole-datum NORMAL leave no trace. */
  lemma ReplaySplit(r: Replica, l: seq<Entry>, i: nat)
    requires i < |l| && l[i].value == NormalReport("") && l[i].changed
    ensures Replay(r, ChangedLines(l)) == Replay(Active(map[]), ChangedLines(l[..i]))
  {
    var a, b := l[..i], l[i + 1..];
    var blank := [l[i].value];
    assert l == a + ([l[i]] + b) && ([l[i]] + b)[1..] == b;
    ChangedLinesAppend(a, [l[i]] + b);
    assert ChangedLines(l) == (ChangedLines(b) + blank) + ChangedLines(a);
    ReplayAppend(r, ChangedLines(b) + blank, ChangedLines(a));
    ReplayAppend(r, ChangedLines(b), blank);
    assert blank[..0] == [];
  }
}

/**
 * Only differences are sent: which lines a scan writes, told by what the client shows and what is asserted.
 */
module ConditionDelta {
  import opened ConditionSpec
  import opened ConditionSync

  /** Entries that stand for an alarm, or a lone placeholder: no clear of a single code is held. */
  predicate AlarmsOnly(l: seq<Entry>) {
    forall i | 0 <= i < |l| :: l[i].placeholder || !Clears(l[i].value.level)
  }

  /** Every report asserted under the code, if any, is the one the client shows. */
  predicate Repeated(r: Replica, ops: seq<Op>, c: string)
    requires AllPlain(ops)
  {
    c in Faults(r) && forall k | 0 <= k < |ops| && ops[k].report.code == c :: ops[k].report == Faults(r)[c]
  }

  predicate Asserted(ops: seq<Op>, c: string)
    requires AllPlain(ops)
  {
    exists k | 0 <= k < |ops| :: ops[k].report.code == c
  }

  /** What an entry of the list says in the middle of a scan of alarms. */
  predicate Tallies(r: Replica, e: Entry, ops: seq<Op>)
    requires AllPlain(ops)
  {
    var c := e.value.code;
    && !e.placeholder && !Clears(e.value.level)
    && (e.marked <==> Asserted(ops, c)) && (e.changed <==> !Repeated(r, ops, c))
    && (!e.changed ==> c in Faults(r) && e.value == Faults(r)[c])
  }

  /** The list in the middle of a scan of alarms. */
  ghost predicate Tally(r: Replica, l: seq<Entry>, ops: seq<Op>)
    requires AllPlain(ops)
  {
    && Shape(l)
    && (forall c | c in Faults(r) :: Faults(r)[c].code == c)
    && if l[0].placeholder then ops == [] && Faults(r) == map[]
       else (forall i | 0 <= i < |l| :: Tallies(r, l[i], ops))
            && (forall c: string :: c in Codes(l) <==> c in Faults(r) || Asserted(ops, c))
  }

  lemma OneMore(r: Replica, ops: seq<Op>, report: Report, c: string)
    requires AllPlain(ops) && AllPlain(ops + [Assert(report)])
    ensures Asserted(ops + [Assert(report)], c) <==> Asserted(ops, c) || report.code == c
    ensures Repeated(r, ops + [Assert(report)], c) <==>
            Repeated(r, ops, c) && (report.code == c ==> c in Faults(r) && report == Faults(r)[c])
  {
    var all := ops + [Assert(report)];
    assert all[|ops|] == Assert(report) && forall k | 0 <= k < |ops| :: all[k] == ops[k];
    hide Faults;
  }

  /** An entry that is not the one asserted. */
  lemma OtherTallies(r: Replica, e: Entry, ops: seq<Op>, report: Report)
    requires AllPlain(ops) && AllPlain(ops + [Assert(report)]) && Tallies(r, e, ops) && e.value.code != report.code
    ensures Tallies(r, e, ops + [Assert(report)])
  {
    OneMore(r, ops, report, e.value.code);
    hide Asserted, Repeated, Faults;
  }

  /** The entry that is asserted again: it is flagged if it differs, and a flag stays. */
  lemma AgainTallies(r: Replica, e: Entry, ops: seq<Op>, report: Report)
    requires AllPlain(ops) && AllPlain(ops + [Assert(report)]) && Tallies(r, e, ops) && e.value.code == report.code
    requires !Clears(report.level) && |report.code| < EVENT_VALUE_LEN
    ensures Tallies(r, SetValue(e, report).(marked := true), ops + [Assert(report)])
  {
    OneMore(r, ops, report, e.value.code);
    var u := SetValue(e, report).(marked := true);
    assert u.value.code == e.value.code;
    hide Asserted, Repeated, Faults;
  }

  lemma NewTallies(r: Replica, ops: seq<Op>, report: Report)
    requires AllPlain(ops) && AllPlain(ops + [Assert(report)]) && !Clears(report.level)
    requires report.code != "" && |report.code| < EVENT_VALUE_LEN && report.code !in Faults(r)
    ensures Tallies(r, NewEntry(report), ops + [Assert(report)])
  {
    OneMore(r, ops, report, report.code);
    Created(report);
    hide Asserted, Repeated, Faults;
  }

  lemma CodesOf(l: seq<Entry>, c: string)
    ensures c in Codes(l) <==> exists i | 0 <= i < |l| :: l[i].value.code == c
  {
  }

  lemma TallyParts(r: Replica, l: seq<Entry>, ops: seq<Op>)
    requires AllPlain(ops) && |l| > 0 && !l[0].placeholder
    ensures Tally(r, l, ops) <==>
            && Shape(l) && (forall c | c in Faults(r) :: Faults(r)[c].code == c)
            && (forall i | 0 <= i < |l| :: Tallies(r, l[i], ops))
            && (forall c: string :: c in Codes(l) <==> c in Faults(r) || Asserted(ops, c))
  {
    hide Shape, Codes, Asserted, Tallies, Faults;
  }

  lemma PlaceTalliesAt(r: Replica, s: State, ops: seq<Op>, report: Report, k: nat)
    requires AllPlain(ops) && AllPlain(ops + [Assert(report)]) && Legal(Assert(report)) && !Clears(report.level)
    requires report.code != "" && Shape(s.list) && k < |Place(s, report).list|
    requires forall i | 0 <= i < |s.list| :: Tallies(r, s.list[i], ops)
    requires report.code in Faults(r) ==> report.code in Codes(s.list)
    ensures Tallies(r, Place(s, report).list[k], ops + [Assert(report)])
  {
    hide *;
    var l, i := s.list, Find(s.list, report.code);
    PlaceCases(s, report);
    CodedLength(report);
    NotItsCode(l, i, k, report.code);
    if k < |l| && k != i {
      OtherTallies(r, l[k], ops, report);
    } else if k < |l| {
      AgainTallies(r, l[k], ops, report);
    } else {
      NewTallies(r, ops, report);
    }
  }

  /** An alarm in a list that stands for alarms. */
  lemma PlaceTally(r: Replica, s: State, ops: seq<Op>, report: Report)
    requires AllPlain(ops) && AllPlain(ops + [Assert(report)]) && Plain(Assert(report)) && !Uncoded(report)
    requires Tally(r, s.list, ops) && |s.list| > 0 && !s.list[0].placeholder && Coded(s.list)
    ensures Tally(r, Place(s, report).list, ops + [Assert(report)])
  {
    var l, m := s.list, Place(s, report).list;
    PlainAlarm(report);
    hide *;
    TallyParts(r, l, ops);
    PlaceShape(s, report);
    CodedHead(m);
    forall k | 0 <= k < |m|
      ensures Tallies(r, m[k], ops + [Assert(report)])
    {
      PlaceTalliesAt(r, s, ops, report, k);
    }
    PlaceCodes(r, l, m, ops, report);
    TallyParts(r, m, ops + [Assert(report)]);
  }

  lemma PlaceCodes(r: Replica, l: seq<Entry>, m: seq<Entry>, ops: seq<Op>, report: Report)
    requires AllPlain(ops) && AllPlain(ops + [Assert(report)]) && Codes(m) == Codes(l) + {report.code}
    requires forall c: string :: c in Codes(l) <==> c in Faults(r) || Asserted(ops, c)
    ensures forall c: string :: c in Codes(m) <==> c in Faults(r) || Asserted(ops + [Assert(report)], c)
  {
    hide Codes, Faults, Asserted, Repeated;
    forall c: string
      ensures c in Codes(m) <==> c in Faults(r) || Asserted(ops + [Assert(report)], c)
    {
      OneMore(r, ops, report, c);
    }
  }

  lemma PlainAlarm(report: Report)
    requires Plain(Assert(report)) && !Uncoded(report)
    ensures Legal(Assert(report)) && !Clears(report.level) && report.code != ""
  {
  }

  lemma NotItsCode(l: seq<Entry>, i: nat, k: nat, code: string)
    requires Shape(l) && i <= |l|
    requires (i < |l| ==> l[i].value.code == code) && (i == |l| ==> code !in Codes(l))
    ensures k < |l| && k != i ==> l[k].value.code != code
  {
  }

  lemma TallyStep(r: Replica, s: State, ops: seq<Op>, report: Report)
    requires AllPlain(ops) && AllPlain(ops + [Assert(report)]) && Plain(Assert(report)) && !Uncoded(report)
    requires Tally(r, s.list, ops)
    ensures Tally(r, Step(s, Assert(report)).list, ops + [Assert(report)])
  {
    StepCases(s, Assert(report));
    if s.list[0].placeholder {
      FirstTally(r, s.(list := []), report);
      assert LoneClear(s.list);
    } else {
      assert Tallies(r, s.list[0], ops);
      assert !LoneClear(s.list) && Coded(s.list);
      PlaceTally(r, s, ops, report);
    }
    hide Step, Place, Tally;
  }

  /** The first alarm for a client that shows none. */
  lemma FirstTally(r: Replica, s: State, report: Report)
    requires s.list == [] && Plain(Assert(report)) && !Uncoded(report) && AllPlain([Assert(report)])
    requires Faults(r) == map[]
    ensures AllPlain([] + [Assert(report)]) && Tally(r, Place(s, report).list, [] + [Assert(report)])
  {
    assert [] + [Assert(report)] == [Assert(report)];
    PlainLegal(report);
    CodedLength(report);
    PlaceShape(s, report);
    Created(report);
    NewTallies(r, [], report);
    PlaceCases(s, report);
    assert [] + [NewEntry(report)] == [NewEntry(report)];
    var m := Place(s, report).list;
    assert m == [NewEntry(report)];
    hide Place, NewEntry, Shape, Tallies, Codes, Faults;
    forall c: string
      ensures c in Codes(m) <==> c in Faults(r) || Asserted([Assert(report)], c)
    {
      assert [Assert(report)][0] == Assert(report);
      CodesOf(m, c);
    }
  }

  lemma LastOf(ops: seq<Op>)
    requires AllAlarms(ops) && ops != []
    ensures var n := |ops| - 1;
      && AllPlain(ops) && AllAlarms(ops[..n]) && AllPlain(ops[..n]) && Plain(ops[n]) && ops[n].Assert?
      && ops[n] == Assert(ops[n].report) && !Uncoded(ops[n].report) && ops[..n] + [ops[n]] == ops
  {
  }

  lemma {:induction false} GatherTally(r: Replica, s: State, ops: seq<Op>)
    requires AllAlarms(ops) && Tally(r, s.list, [])
    ensures AllPlain(ops) && Tally(r, Gather(s, ops).list, ops)
  {
    if ops != [] { LastOf(ops); }
    hide *;
    GatherLast(s, ops);
    if ops != [] {
      var n := |ops| - 1;
      GatherTally(r, s, ops[..n]);
      TallyStep(r, Gather(s, ops[..n]), ops[..n], ops[n].report);
    }
  }

  lemma ShownCodes(l: seq<Entry>, c: string)
    requires Distinct(l) && c in FaultMap(l)
    ensures FaultMap(l)[c].code == c && c in Codes(l)
  {
    FaultMapAt(l);
    var i :| 0 <= i < |l| && l[i].value.code == c;
    assert AgreesAt(Active(FaultMap(l)), l[i].value);
  }

  lemma UnmarkedTallies(r: Replica, l: seq<Entry>, i: nat)
    requires Synced(r, l) && AlarmsOnly(l) && i < |l| && Coded(l) && Faults(r) == FaultMap(l)
    ensures Tallies(r, l[i].(marked := false), [])
  {
    FaultMapAt(l);
    assert AgreesAt(Active(FaultMap(l)), l[i].value);
  }

  lemma BeginTally(r: Replica, s: State)
    requires Synced(r, s.list) && AlarmsOnly(s.list) && !s.simple
    ensures Tally(r, Begin(s).list, [])
  {
    var l, m := s.list, Begin(s).list;
    UnmarkShape(l);
    SyncedFaults(r, l);
    if !l[0].placeholder {
      forall i | 0 <= i < |m|
        ensures Tallies(r, m[i], [])
      {
        UnmarkedTallies(r, l, i);
        assert m[i] == l[i].(marked := false);
      }
      forall c: string
        ensures c in Codes(m) <==> c in Faults(r)
      {
        AlarmShown(r, l, m, c);
      }
    }
    forall c | c in Faults(r)
      ensures Faults(r)[c].code == c
    {
      ShownCodes(l, c);
    }
    hide Shape, Faults, Codes, Tallies, Unmark, FaultMap;
  }

  lemma SyncedFaults(r: Replica, l: seq<Entry>)
    requires Synced(r, l)
    ensures |l| > 0 && Distinct(l) && Faults(r) == FaultMap(l)
    ensures l[0].placeholder ==> Faults(r) == map[]
    ensures !l[0].placeholder ==> Coded(l)
  {
    if l[0].placeholder { ViewLone(l); }
    if |l| == 1 && Clears(l[0].value.level) {
      assert FaultMap(l[1..]) == map[];
    }
  }

  lemma AlarmShown(r: Replica, l: seq<Entry>, m: seq<Entry>, c: string)
    requires Synced(r, l) && AlarmsOnly(l) && Coded(l) && Faults(r) == FaultMap(l)
    requires |m| == |l| && forall i | 0 <= i < |l| :: m[i] == l[i].(marked := false)
    ensures c in Codes(m) <==> c in Faults(r)
  {
    FaultMapAt(l);
    if c in Codes(m) {
      var i :| 0 <= i < |m| && m[i].value.code == c;
      assert AgreesAt(Active(FaultMap(l)), l[i].value);
    }
    if c in Faults(r) {
      var i :| 0 <= i < |l| && l[i].value.code == c;
      assert m[i].value.code == c;
    }
  }

  // ---- The lines of a scan -------------------------------------------------------------------------

  /** The lines are the values of the changed entries, one for each. */
  lemma {:induction false} LinesAre(l: seq<Entry>)
    requires Distinct(l)
    ensures forall v: Report :: v in ChangedLines(l) <==> exists i | 0 <= i < |l| :: l[i].changed && l[i].value == v
    ensures forall i, j | 0 <= i < j < |ChangedLines(l)| :: ChangedLines(l)[i].code != ChangedLines(l)[j].code
  {
    if l != [] {
      var rest := ChangedLines(l[1..]);
      LinesAre(l[1..]);
      assert forall i | 0 < i < |l| :: l[i] == l[1..][i - 1];
      forall v: Report
        ensures v in ChangedLines(l) <==> exists i | 0 <= i < |l| :: l[i].changed && l[i].value == v
      {
        if i: nat :| i < |l[1..]| && l[1..][i].changed && l[1..][i].value == v {
          assert l[i + 1].changed && l[i + 1].value == v;
        }
      }
      forall i, j | 0 <= i < j < |ChangedLines(l)|
        ensures ChangedLines(l)[i].code != ChangedLines(l)[j].code
      {
        if j == |rest| {
          assert rest[i] in rest;
          var k :| 0 <= k < |l[1..]| && l[1..][k].value == rest[i];
          assert l[k + 1].value == rest[i];
        }
      }
    }
  }

  /** What a scan of alarms tells the client: the last value of a code unless it only repeats what the client shows,
      and a clear for a code the client shows that is not asserted. */
  predicate Told(r: Replica, ops: seq<Op>, v: Report)
    requires AllPlain(ops)
  {
    if v.code in LastValues(ops) then v == LastValues(ops)[v.code] && !Repeated(r, ops, v.code)
    else v.code in Faults(r) && v == Report(Normal, "", v.code, "", "")
  }

  lemma {:induction false} LastAsserted(ops: seq<Op>, c: string)
    requires AllPlain(ops)
    ensures c in LastValues(ops) <==> Asserted(ops, c)
  {
    if ops != [] {
      var n := |ops| - 1;
      LastAsserted(ops[..n], c);
      assert ops == ops[..n] + [Assert(ops[n].report)];
      OneMore(Down, ops[..n], ops[n].report, c);
      hide Asserted;
    }
  }

  /** An entry after the sweep. */
  lemma SweptTold(r: Replica, e: Entry, ops: seq<Op>)
    requires AllPlain(ops) && Tallies(r, e, ops) && |e.value.code| < EVENT_VALUE_LEN
    requires e.value.code in Faults(r) || Asserted(ops, e.value.code)
    requires e.marked ==> e.value.code in LastValues(ops) && LastValues(ops)[e.value.code] == e.value
    ensures SweepEntry(e).value.code == e.value.code
    ensures SweepEntry(e).changed <==> Told(r, ops, SweepEntry(e).value)
    ensures forall v: Report | v.code == e.value.code :: Told(r, ops, v) ==> v == SweepEntry(e).value
  {
    LastAsserted(ops, e.value.code);
    hide LastValues, Asserted, Repeated, Faults;
  }

  lemma SweptLines(r: Replica, l: seq<Entry>, ops: seq<Op>)
    requires AllPlain(ops) && Tally(r, l, ops) && |l| > 0 && !l[0].placeholder && MarkedAre(l, LastValues(ops))
    ensures forall v: Report :: v in ChangedLines(Sweep(l)) <==> Told(r, ops, v)
    ensures var lines := ChangedLines(Sweep(l)); forall i, j | 0 <= i < j < |lines| :: lines[i].code != lines[j].code
  {
    SweptIs(l);
    hide *;
    TallyParts(r, l, ops);
    SweptShape(l);
    ShapeDistinct(Sweep(l));
    LinesAre(Sweep(l));
    forall v: Report
      ensures v in ChangedLines(Sweep(l)) <==> Told(r, ops, v)
    {
      SweptLine(r, l, ops, v);
    }
  }

  lemma ShapeDistinct(l: seq<Entry>)
    requires Shape(l)
    ensures Distinct(l)
  {
  }

  lemma SweptIs(l: seq<Entry>)
    ensures |Sweep(l)| == |l| && forall i | 0 <= i < |l| :: Sweep(l)[i] == SweepEntry(l[i])
  {
    hide SweepEntry;
  }

  lemma SweptLine(r: Replica, l: seq<Entry>, ops: seq<Op>, v: Report)
    requires AllPlain(ops) && Tally(r, l, ops) && |l| > 0 && !l[0].placeholder && MarkedAre(l, LastValues(ops))
    requires |Sweep(l)| == |l| && forall i | 0 <= i < |l| :: Sweep(l)[i] == SweepEntry(l[i])
    requires v in ChangedLines(Sweep(l)) <==>
               exists i | 0 <= i < |Sweep(l)| :: Sweep(l)[i].changed && Sweep(l)[i].value == v
    ensures v in ChangedLines(Sweep(l)) <==> Told(r, ops, v)
  {
    hide ChangedLines, Sweep, SweepEntry, LastValues, Told, Shape, Tallies, Faults, Asserted;
    forall i | 0 <= i < |l|
      ensures SweepEntry(l[i]).value.code == l[i].value.code
      ensures SweepEntry(l[i]).changed <==> Told(r, ops, SweepEntry(l[i]).value)
      ensures l[i].value.code == v.code && Told(r, ops, v) ==> v == SweepEntry(l[i]).value
    {
      EntryFits(l, i);
      SweptTold(r, l[i], ops);
    }
    if forall k | 0 <= k < |l| :: l[k].value.code != v.code {
      NotTold(r, l, ops, v);
    }
  }

  lemma EntryFits(l: seq<Entry>, i: nat)
    requires Shape(l) && i < |l|
    ensures |l[i].value.code| < EVENT_VALUE_LEN && l[i].value.code in Codes(l)
  {
  }

  lemma NotTold(r: Replica, l: seq<Entry>, ops: seq<Op>, v: Report)
    requires AllPlain(ops) && Tally(r, l, ops) && |l| > 0 && !l[0].placeholder
    requires forall k | 0 <= k < |l| :: l[k].value.code != v.code
    ensures !Told(r, ops, v)
  {
    LastAsserted(ops, v.code);
    CodesOf(l, v.code);
    hide Codes, LastValues, Asserted, Faults;
  }

  /**
   * A scan that asserts alarms, for a client in step: each code gets at most one line, and the lines are exactly what
   * the client has to be told.
   */
  lemma ScanTellsExactly(r: Replica, s: State, ops: seq<Op>)
    requires Synced(r, s.list) && AlarmsOnly(s.list) && !s.simple && AllAlarms(ops) && ops != []
    ensures forall v: Report :: v in ScanLines(s, ops) <==> Told(r, ops, v)
    ensures var lines := ScanLines(s, ops); forall i, j | 0 <= i < j < |lines| :: lines[i].code != lines[j].code
  {
    var t := Gather(Begin(s), ops);
    BeginTally(r, s);
    GatherTally(r, Begin(s), ops);
    UnmarkShape(s.list);
    GatherMarks(Begin(s), ops);
    GatherFlags(Begin(s), ops);
    SomeMarked(t.list, ops);
    SweptLines(r, t.list, ops);
    SweptSent(t);
    hide *;
    ScanParts(r, s, ops);
  }

  lemma SomeMarked(l: seq<Entry>, ops: seq<Op>)
    requires AllPlain(ops) && ops != [] && MarkedAre(l, LastValues(ops)) && Shape(l) && !LoneClear(l)
    ensures !AllStale(l) && |l| > 0 && !l[0].placeholder
  {
    var c := ops[|ops| - 1].report.code;
    assert c in LastValues(ops);
    var i :| 0 <= i < |l| && l[i].marked && l[i].value.code == c;
    assert !Stale(l[i]);
  }

  /** The end of a scan in which something was asserted sends the changed entries of the swept list. */
  lemma SweptSent(t: State)
    requires t.begun && !AllStale(t.list)
    ensures FinishLines(t) == ChangedLines(Sweep(t.list))
  {
    if !Prepare(t).changed { QuietLines(Sweep(t.list)); }
    hide Sweep, ChangedLines, AllStale;
  }

  /** In particular a code under which the scan only repeats what the client shows has no line. */
  lemma RepeatedIsSilent(r: Replica, s: State, ops: seq<Op>, c: string)
    requires Synced(r, s.list) && AlarmsOnly(s.list) && !s.simple && AllAlarms(ops) && ops != []
    requires Asserted(ops, c) && Repeated(r, ops, c)
    ensures forall v | v in ScanLines(s, ops) :: v.code != c
  {
    hide AlarmsOnly, ScanLines, LastValues, Asserted, Repeated;
    ScanTellsExactly(r, s, ops);
    LastAsserted(ops, c);
  }

  // ---- Nothing changes, nothing is sent ------------------------------------------------------------

  /** The call asserts what the client shows already. */
  predicate Repeats(r: Replica, op: Op) {
    op.Assert? &&
    if Uncoded(op.report) then r == if op.report.level.Unavailable? then Down else Active(map[])
    else op.report.code in Faults(r) && Faults(r)[op.report.code] == op.report
  }

  predicate Mentioned(ops: seq<Op>, c: string) {
    exists k | 0 <= k < |ops| :: ops[k].Assert? && ops[k].report.code == c
  }

  /** The same entries without a change flag; those that were mentioned are marked. */
  ghost predicate Still(was: seq<Entry>, l: seq<Entry>, ops: seq<Op>) {
    |l| == |was| && forall i | 0 <= i < |l| ::
      && l[i].value == was[i].value && l[i].placeholder == was[i].placeholder && !l[i].changed
      && (Mentioned(ops, l[i].value.code) ==> l[i].marked)
  }

  /** What is repeated is an entry of the list as it stands. */
  lemma RepeatedEntry(r: Replica, l: seq<Entry>, op: Op) returns (i: nat)
    requires Synced(r, l) && AlarmsOnly(l) && Repeats(r, op)
    ensures Uncoded(op.report) ==> i == 0 && AlreadyIn(l, op.report.level)
    ensures !Uncoded(op.report) ==> i < |l| && l[i].value == op.report && !Clears(op.report.level)
  {
    FaultMapAt(l);
    i := 0;
    SyncedFaults(r, l);
    if Uncoded(op.report) {
      AlarmIsShown(l);
    } else {
      assert op.report.code in FaultMap(l);
      i :| 0 <= i < |l| && l[i].value.code == op.report.code;
      assert AgreesAt(Active(FaultMap(l)), l[i].value);
    }
  }

  /** A list that stands for alarms and shows none is a lone placeholder. */
  lemma AlarmIsShown(l: seq<Entry>)
    requires |l| > 0 && Distinct(l) && AlarmsOnly(l)
    ensures FaultMap(l) == map[] ==> l[0].placeholder
  {
    FaultMapAt(l);
    var v := l[0].value;
    assert AgreesAt(Active(FaultMap(l)), v);
  }

  lemma MentionedNext(ops: seq<Op>, op: Op, c: string)
    requires op.Assert?
    ensures Mentioned(ops + [op], c) <==> Mentioned(ops, c) || op.report.code == c
  {
    var all := ops + [op];
    assert all[|ops|] == op && forall k | 0 <= k < |ops| :: all[k] == ops[k];
  }

  lemma StillStep(was: seq<Entry>, s: State, ops: seq<Op>, op: Op, i: nat)
    requires Shape(was) && Still(was, s.list, ops) && !s.changed && op.Assert? && i < |was|
    requires Uncoded(op.report) ==> i == 0 && AlreadyIn(was, op.report.level)
    requires !Uncoded(op.report) ==> was[i].value == op.report && !Clears(op.report.level)
    ensures Still(was, Step(s, op).list, ops + [op]) && !Step(s, op).changed
  {
    var l, report := s.list, op.report;
    var m := Step(s, op).list;
    assert l[i].value == was[i].value;
    if Uncoded(report) {
      assert m == [l[0].(marked := true)];
    } else {
      var j := Find(l, report.code);
      assert l[j].value == was[j].value && was[j].value.code == was[i].value.code;
      assert j == i && !LoneClear(l);
      assert m == l[i := l[i].(marked := true)];
    }
    hide Step, Shape, Mentioned, Find;
    forall k | 0 <= k < |m|
      ensures Mentioned(ops + [op], m[k].value.code) ==> m[k].marked
    {
      MentionedNext(ops, op, m[k].value.code);
      if k != i { OtherCode(was, k, i); }
    }
  }

  lemma OtherCode(l: seq<Entry>, k: nat, i: nat)
    requires Shape(l) && k < |l| && i < |l| && k != i
    ensures l[k].value.code != l[i].value.code
  {
  }

  lemma {:induction false} StillGather(r: Replica, was: seq<Entry>, s: State, ops: seq<Op>)
    requires Synced(r, was) && AlarmsOnly(was) && Still(was, s.list, []) && !s.changed
    requires forall k | 0 <= k < |ops| :: Repeats(r, ops[k])
    ensures Still(was, Gather(s, ops).list, ops) && !Gather(s, ops).changed
  {
    if ops == [] {
      GatherLast(s, ops);
    } else {
      var n := |ops| - 1;
      StillGather(r, was, s, ops[..n]);
      GatherLast(s, ops);
      assert ops == ops[..n] + [ops[n]] && Repeats(r, ops[n]);
      var i := RepeatedEntry(r, was, ops[n]);
      hide Gather, Step, Still, Repeats, AlarmsOnly, View;
      StillStep(was, Gather(s, ops[..n]), ops[..n], ops[n], i);
    }
  }

  /**
   * A scan that asserts just what a client in step shows already, all of it, in any order and as often as it likes,
   * sends nothing and leaves the list as it was.
   */
  lemma SilentScan(r: Replica, s: State, ops: seq<Op>)
    requires Synced(r, s.list) && AlarmsOnly(s.list)
    requires forall k | 0 <= k < |ops| :: Repeats(r, ops[k])
    requires forall c | c in Faults(r) :: Mentioned(ops, c)
    ensures ScanLines(s, ops) == []
    ensures var l := Scan(s, ops).list;
      |l| == |s.list| && forall i | 0 <= i < |l| :: l[i].value == s.list[i].value
  {
    var b := Begin(s);
    NothingMentioned(s);
    GatherFlags(b, ops);
    StillGather(r, s.list, b, ops);
    var t := Gather(b, ops);
    FaultMapAt(s.list);
    SyncedFaults(r, s.list);
    forall i | 0 <= i < |t.list|
      ensures !Stale(t.list[i])
    {
      assert AgreesAt(Active(FaultMap(s.list)), s.list[i].value);
      assert t.list[i].placeholder || Mentioned(ops, t.list[i].value.code);
    }
    hide Gather, Begin, Repeats, Mentioned, Synced, AlarmsOnly, FaultMap, Faults;
    NothingSwept(t);
  }

  lemma NothingMentioned(s: State)
    requires !AnyChanged(s.list)
    ensures Still(s.list, Begin(s).list, []) && !Begin(s).changed && Begin(s).begun
  {
  }

  lemma NothingSwept(t: State)
    requires t.begun && !t.changed && |t.list| > 0
    requires forall i | 0 <= i < |t.list| :: !Stale(t.list[i]) && !t.list[i].changed
    ensures FinishLines(t) == [] && Finish(t).list == t.list
  {
    assert !Stale(t.list[0]);
    assert Sweep(t.list) == t.list;
  }

  // ---- Which lists stand for alarms only -----------------------------------------------------------

  predicate MarkedAlarms(l: seq<Entry>) {
    forall i | 0 <= i < |l| && l[i].marked :: l[i].placeholder || !Clears(l[i].value.level)
  }

  lemma StepMarkedAlarms(s: State, op: Op)
    requires Shape(s.list) && MarkedAlarms(s.list) && Plain(op)
    ensures MarkedAlarms(Step(s, op).list)
  {
    hide Find, Clip;
  }

  lemma {:induction false} GatherMarkedAlarms(s: State, ops: seq<Op>)
    requires Shape(s.list) && MarkedAlarms(s.list) && AllPlain(ops)
    ensures MarkedAlarms(Gather(s, ops).list) && Shape(Gather(s, ops).list)
  {
    if ops != [] {
      var n := |ops| - 1;
      GatherMarkedAlarms(s, ops[..n]);
      StepShape(Gather(s, ops[..n]), ops[n]);
      StepMarkedAlarms(Gather(s, ops[..n]), ops[n]);
    }
  }

  lemma {:induction false} WrittenAlarms(l: seq<Entry>)
    requires MarkedAlarms(l)
    ensures AlarmsOnly(Written(l))
  {
    if l != [] {
      assert forall i | 0 <= i < |l[1..]| :: l[1..][i] == l[i + 1];
      WrittenAlarms(l[1..]);
    }
  }

  /** Every scan of alarms and whole-datum clears that sends something leaves a list that stands for alarms only. */
  lemma ScanAlarmsOnly(s: State, ops: seq<Op>)
    requires Shape(s.list) && !s.simple && AllPlain(ops) && ScanLines(s, ops) != []
    ensures AlarmsOnly(Scan(s, ops).list)
  {
    var b := Begin(s);
    UnmarkShape(s.list);
    GatherMarkedAlarms(b, ops);
    GatherFlags(b, ops);
    var t := Gather(b, ops);
    var u := if AllStale(t.list) then Add(t, NormalReport("")) else t;
    assert MarkedAlarms(u.list);
    var m := Sweep(u.list);
    assert forall i | 0 <= i < |m| && m[i].marked :: m[i] == u.list[i];
    WrittenAlarms(m);
    hide Gather, Sweep, AllStale, Written;
  }

  // ---- Single calls --------------------------------------------------------------------------------

  /** A text of up to 511 characters is kept, a longer one is cut to 511. */
  lemma Kept(s: string)
    ensures Clip(s) == if |s| <= 511 then s else s[..511]
  {
  }

  /** An update with the same values changes nothing but the placeholder mark, which is never taken back. */
  lemma SameValue(e: Entry, r: Report)
    ensures e.value == r ==> SetValue(e, r).value == r && SetValue(e, r).changed == e.changed
    ensures e.value != r ==> SetValue(e, r).changed && (Fits(r) ==> SetValue(e, r).value == r)
    ensures SetValue(e, r).placeholder <==>
            e.placeholder || (r.code == "" && (r.level == Normal || r.level == Unavailable))
    ensures SetValue(e, r).marked == e.marked
  {
  }

  /**
   * The change flag of the condition after a call: that of the entry if the report updates one, even if another entry
   * has changed before; set if the list changes; and set by every removal of a code that is there.
   */
  lemma FlagAfter(s: State, r: Report, c: string)
    ensures Uncoded(r) && AlreadyIn(s.list, r.level) ==> Add(s, r).changed == s.changed
    ensures Uncoded(r) && !AlreadyIn(s.list, r.level) ==> Add(s, r).changed
    ensures !Uncoded(r) && !LoneClear(s.list) ==>
              (Add(s, r).changed <==>
               forall i | 0 <= i < |s.list| && s.list[i].value.code == r.code && FirstOf(s.list, i) ::
                 s.list[i].changed || s.list[i].value != r)
    ensures Remove(s, c).changed <==> s.changed || exists i | 0 <= i < |s.list| :: s.list[i].value.code == c
  {
    assert AlreadyIn(s.list, Normal) ==> s.list[0].value.code == "";
    var i := Find(s.list, r.code);
    if i < |s.list| {
      assert FirstOf(s.list, i);
    }
    hide Clip;
  }

  predicate FirstOf(l: seq<Entry>, i: nat)
    requires i < |l|
  {
    forall j | 0 <= j < i :: l[j].value.code != l[i].value.code
  }

  /** Outside a scan nothing is swept, and every entry is written, in order, and loses its flag. */
  lemma OutsideScan(s: State)
    requires !s.begun
    ensures Prepare(s) == s && |AppendLines(s)| == |s.list| == |Append(s).list|
    ensures forall i | 0 <= i < |s.list| ::
              AppendLines(s)[i] == s.list[i].value && Append(s).list[i] == s.list[i].(changed := false)
  {
  }

  /** A scan begins unprepared with nothing changed, and until it is prepared nothing is written. */
  lemma Unprepared(s: State)
    ensures Begin(s).begun && !Begin(s).prepared && !Begin(s).changed
    ensures s.begun && !s.prepared ==> AppendLines(s) == [] && Append(s) == s
    ensures s.begun ==> Prepare(s).prepared
  {
  }
}

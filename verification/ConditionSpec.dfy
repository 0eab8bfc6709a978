/**
 * The active list of a Condition as a value, and what each operation does to it.
 *
 * A Condition holds the alarms of one device datum. On every scan the alarms that still hold are
 * added again, the others are swept, and only entries whose change flag is set are written out.
 */
module ConditionSpec {

  const EVENT_VALUE_LEN := 512

  datatype Level = Unavailable | Normal | Warning | Fault

  /** The five fields of a condition. It is what a caller passes to add and what one output line shows. */
  datatype Report = Report(level: Level, text: string, code: string, qualifier: string, severity: string)

  datatype Entry = Entry(value: Report, changed: bool, marked: bool, placeholder: bool)

  datatype State = State(list: seq<Entry>, changed: bool, begun: bool, prepared: bool, simple: bool)

  predicate Clears(level: Level) {
    level.Normal? || level.Unavailable?
  }

  /** An uncoded NORMAL or UNAVAILABLE stands for the whole datum. */
  predicate Uncoded(r: Report) {
    Clears(r.level) && r.code == ""
  }

  /** A copy into a buffer of EVENT_VALUE_LEN characters, the last one being the terminator. */
  function Clip(s: string): string {
    if |s| >= EVENT_VALUE_LEN then s[..EVENT_VALUE_LEN - 1] else s
  }

  function ClipReport(r: Report): Report {
    Report(r.level, Clip(r.text), Clip(r.code), Clip(r.qualifier), Clip(r.severity))
  }

  function SetValue(e: Entry, r: Report): Entry {
    var held := e.(placeholder := e.placeholder || Uncoded(r));
    if e.value == r then held else held.(value := ClipReport(r), changed := true)
  }

  function NewEntry(r: Report): Entry {
    Entry(ClipReport(r), true, true, Uncoded(r))
  }

  function NormalReport(code: string): Report {
    Report(Normal, "", code, "", "")
  }

  /** The index of the first entry with this code, or the length of the list. */
  function Find(l: seq<Entry>, code: string): (i: nat)
    ensures i <= |l|
    ensures forall j | 0 <= j < i :: l[j].value.code != code
    ensures i < |l| ==> l[i].value.code == code
  {
    if l == [] then 0 else if l[0].value.code == code then 0 else 1 + Find(l[1..], code)
  }

  /** The list has shrunk to one cleared entry, which a coded or abnormal report replaces. */
  predicate LoneClear(l: seq<Entry>) {
    |l| == 1 && Clears(l[0].value.level)
  }

  predicate AlreadyIn(l: seq<Entry>, level: Level) {
    |l| == 1 && l[0].value.code == "" && l[0].value.level == level
  }

  function Add(s: State, r: Report): State {
    if Uncoded(r) then
      if AlreadyIn(s.list, r.level) then s.(list := [s.list[0].(marked := true)])
      else s.(list := [NewEntry(Report(r.level, "", "", "", ""))], changed := true)
    else
      Place(if LoneClear(s.list) then s.(list := []) else s, r)
  }

  /** Updates the entry with the report's code, or adds one at the end. */
  function Place(s: State, r: Report): State {
    var i := Find(s.list, r.code);
    if i < |s.list| then
      var e := SetValue(s.list[i], r);
      s.(list := s.list[i := e.(marked := true)], changed := e.changed)
    else
      s.(list := s.list + [NewEntry(r)], changed := true)
  }

  function Remove(s: State, code: string): State {
    var i := Find(s.list, code);
    if i == |s.list| then s
    else if |s.list| == 1 then Add(s, NormalReport("")).(changed := true)
    else s.(list := s.list[i := SetValue(s.list[i], NormalReport(code)).(marked := false)], changed := true)
  }

  function Unmark(l: seq<Entry>): seq<Entry> {
    seq(|l|, i requires 0 <= i < |l| => l[i].(marked := false))
  }

  function Begin(s: State): State {
    State(if s.simple then s.list else Unmark(s.list), false, true, false, s.simple)
  }

  predicate Stale(e: Entry) {
    !e.placeholder && !e.marked
  }

  predicate AllStale(l: seq<Entry>) {
    forall k | 0 <= k < |l| :: Stale(l[k])
  }

  predicate AnyChanged(l: seq<Entry>) {
    exists k | 0 <= k < |l| :: l[k].changed
  }

  function SweepEntry(e: Entry): Entry {
    if Stale(e) then SetValue(e, NormalReport(e.value.code)) else e
  }

  function Sweep(l: seq<Entry>): seq<Entry> {
    seq(|l|, i requires 0 <= i < |l| => SweepEntry(l[i]))
  }

  function Prepare(s: State): State {
    if !s.begun then s
    else
      var t := if AllStale(s.list) then Add(s, NormalReport("")) else s;
      var swept := Sweep(t.list);
      t.(list := swept, changed := t.changed || AnyChanged(swept), prepared := true)
  }

  /** The lines written by a sweep: changed entries only, from the end of the list to its start. */
  function ChangedLines(l: seq<Entry>): seq<Report> {
    if l == [] then [] else ChangedLines(l[1..]) + (if l[0].changed then [l[0].value] else [])
  }

  /** What is left of the list once the changed entries are written and the stale ones dropped. */
  function Written(l: seq<Entry>): seq<Entry> {
    if l == [] then []
    else (if Stale(l[0]) then [] else [l[0].(changed := false)]) + Written(l[1..])
  }

  /** The lines written outside a scan: every entry, in order. */
  function AllLines(l: seq<Entry>): seq<Report> {
    seq(|l|, i requires 0 <= i < |l| => l[i].value)
  }

  function Printed(l: seq<Entry>): seq<Entry> {
    seq(|l|, i requires 0 <= i < |l| => l[i].(changed := false))
  }

  function Append(s: State): State {
    if !s.begun then s.(list := Printed(s.list))
    else if s.prepared then s.(list := Written(s.list))
    else s
  }

  function AppendLines(s: State): seq<Report> {
    if !s.begun then AllLines(s.list)
    else if s.prepared then ChangedLines(s.list)
    else []
  }

  function Cleanup(s: State): State {
    s.(begun := false, prepared := false)
  }

  /** One call made by the device code while it gathers data. */
  datatype Op = Assert(report: Report) | Retract(code: string)

  function Step(s: State, op: Op): State {
    match op
    case Assert(r) => Add(s, r)
    case Retract(code) => Remove(s, code)
  }

  function Gather(s: State, ops: seq<Op>): State {
    if ops == [] then s else Step(Gather(s, ops[..|ops| - 1]), ops[|ops| - 1])
  }

  /** The end of a scan: prepare, send if changed, clean up. */
  function Finish(s: State): State {
    var p := Prepare(s);
    Cleanup(if p.changed then Append(p) else p)
  }

  function FinishLines(s: State): seq<Report> {
    var p := Prepare(s);
    if p.changed then AppendLines(p) else []
  }

  /** The adapter's scan of one datum. */
  function Scan(s: State, ops: seq<Op>): State {
    Finish(Gather(Begin(s), ops))
  }

  function ScanLines(s: State, ops: seq<Op>): seq<Report> {
    FinishLines(Gather(Begin(s), ops))
  }
}

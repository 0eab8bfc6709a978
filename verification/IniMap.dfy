/**
 * A file that only this library has written is a map from section and key to value, without regard to case.
 */
module IniMap {
  import opened IniSpec
  import opened IniLines

  datatype Op = Set(section: string, key: string, value: string)
              | Delete(section: string, key: string)
              | Clear(section: string)

  predicate Good(op: Op) {
    && GoodSection(op.section)
    && (op.Set? ==> GoodKey(op.key) && GoodValue(op.value) && Fits(op.key, op.value))
    && (op.Delete? ==> GoodKey(op.key))
  }

  function Apply(f: File, op: Op): File {
    match op
    case Set(s, k, v) => Puts(f, s, Some(k), Some(v))
    case Delete(s, k) => Puts(f, s, Some(k), None)
    case Clear(s) => Puts(f, s, None, None)
  }

  function Run(f: File, ops: seq<Op>): File
    decreases |ops|
  {
    if ops == [] then f else Run(Apply(f, ops[0]), ops[1..])
  }

  type Entries = map<(string, string), string>

  function Update(m: Entries, op: Op): Entries {
    match op
    case Set(s, k, v) => m[(Fold(s), Fold(k)) := v]
    case Delete(s, k) => m - {(Fold(s), Fold(k))}
    case Clear(s) => map e | e in m && e.0 != Fold(s) :: m[e]
  }

  function UpdateAll(m: Entries, ops: seq<Op>): Entries
    decreases |ops|
  {
    if ops == [] then m else UpdateAll(Update(m, ops[0]), ops[1..])
  }

  function At(m: Entries, s: string, k: string): Option<string> {
    if (Fold(s), Fold(k)) in m then Some(m[(Fold(s), Fold(k))]) else None
  }

  ghost predicate Agrees(f: File, m: Entries) {
    forall s: string, k: string :: Gets(f, s, k) == At(m, s, k)
  }

  // ---- What such a file looks like -----------------------------------------------------------------

  /** A header, or an entry without a blank before the separator. */
  predicate TidyLine(t: string) {
    if Opens(t) then Name(t).Some? && Name(t).value != ""
    else Entry(t) && (Sep(t) > 0 ==> !Blank(t[Sep(t) - 1]))
  }

  /** The keys in front of the next header. */
  function KeysHere(lines: seq<string>): set<string> {
    if lines == [] || Opens(lines[0]) then {} else {Fold(KeyOf(lines[0]))} + KeysHere(lines[1..])
  }

  function Names(lines: seq<string>): set<string> {
    if lines == [] then {}
    else (if Name(lines[0]).Some? then {Fold(Name(lines[0]).value)} else {}) + Names(lines[1..])
  }

  /** No section comes twice, and no key twice in a section. */
  predicate Tidy(lines: seq<string>) {
    lines == [] ||
    (&& TidyLine(lines[0]) && Tidy(lines[1..])
     && if Opens(lines[0]) then Fold(Name(lines[0]).value) !in Names(lines[1..])
        else Fold(KeyOf(lines[0])) !in KeysHere(lines[1..]))
  }

  predicate TidyFile(f: File) {
    f.Some? ==> Tidy(f.value)
  }

  lemma AssignmentTidy(k: string, v: string)
    requires GoodKey(k) && GoodValue(v) && Fits(k, v)
    ensures var t := k + "=" + v;
      && NewLines(k, Some(v)) == Inserted(k, Some(v)) == [t]
      && TidyLine(t) && !Opens(t) && Name(t) == None && KeyOf(t) == k
  {
    AssignmentRead(k, v);
    AssignmentFits(k, v);
    assert k != "" ==> (k + "=" + v)[|k| - 1] == k[|k| - 1];
    hide KeyOf, ValueOf, Entry, Content, Assignment, Sep, Name;
  }

  lemma HeaderTidy(s: string)
    requires GoodSection(s) && s != ""
    ensures Opens(Header(s)) && Name(Header(s)) == Some(s) && TidyLine(Header(s)) && HeaderLines(s) == [Header(s)]
  {
    HeaderRead(s);
    HeaderFits(s);
  }

  lemma {:induction false} EditHereTidy(lines: seq<string>, k: string, v: Option<string>)
    requires Tidy(lines) && GoodEdit(k, v)
    ensures Tidy(EditHere(lines, k, v)) && Names(EditHere(lines, k, v)) == Names(lines)
    ensures KeysHere(EditHere(lines, k, v))
            == if v.Some? then KeysHere(lines) + {Fold(k)} else KeysHere(lines) - {Fold(k)}
  {
    var e := EditHere(lines, k, v);
    if v.Some? {
      AssignmentTidy(k, v.value);
    }
    hide TidyLine, KeyOf, Name, Entry, Fold, HasRawKey, Content, Assignment, Opens;
    if lines == [] {
    } else if Opens(lines[0]) {
      if v.Some? {
        assert e[1..] == lines;
      } else {
        assert e == lines;
      }
    } else if HasRawKey(lines[0], k) {
      RawIsKey(lines[0], k);
      KeyIs(lines[0], k);
      if v.Some? {
        assert e[1..] == lines[1..];
      } else {
        assert e == lines[1..];
        NoName(lines[0]);
      }
    } else {
      EditHereTidy(lines[1..], k, v);
      assert e[1..] == EditHere(lines[1..], k, v);
      NotKey(lines[0], k);
    }
  }

  lemma KeyIs(t: string, k: string)
    requires HasKey(t, k)
    ensures Fold(KeyOf(t)) == Fold(k)
  {
  }

  lemma NoName(t: string)
    requires !Opens(t)
    ensures Name(t) == None
  {
  }

  /** A tidy line an edit does not take for the key's is not the key's. */
  lemma NotKey(t: string, k: string)
    requires TidyLine(t) && !Opens(t) && !HasRawKey(t, k)
    ensures Fold(KeyOf(t)) != Fold(k)
  {
    var raw := t[..Sep(t)];
    assert raw != "" ==> raw[|raw| - 1] == t[Sep(t) - 1];
    assert StripTrailing(raw) == raw;
  }

  lemma {:induction false} EditTidy(lines: seq<string>, s: string, k: string, v: Option<string>)
    requires Tidy(lines) && GoodSection(s) && GoodEdit(k, v)
    ensures Tidy(Edit(lines, s, k, v))
    ensures s != "" ==> KeysHere(Edit(lines, s, k, v)) == KeysHere(lines)
    ensures Names(Edit(lines, s, k, v)) <= Names(lines) + (if s != "" then {Fold(s)} else {})
  {
    var e := Edit(lines, s, k, v);
    if s == "" {
      EditHereTidy(lines, k, v);
    } else {
      HeaderTidy(s);
      if v.Some? {
        AssignmentTidy(k, v.value);
      }
      hide TidyLine, KeyOf, Name, Entry, Fold, HasRawKey, Content, Assignment, Opens, Header, EditHere;
      hide HeaderLines, NewLines, Inserted;
      if lines == [] {
        if v.Some? {
          NewSectionTidy(Header(s), k + "=" + v.value);
        }
      } else if IsHeader(lines[0], s) {
        EditHereTidy(lines[1..], k, v);
        HeaderOpens(lines[0], s);
        assert e[1..] == EditHere(lines[1..], k, v);
      } else {
        EditTidy(lines[1..], s, k, v);
        OtherName(lines[0], s);
        assert e[1..] == Edit(lines[1..], s, k, v);
      }
    }
  }

  lemma NewSectionTidy(h: string, t: string)
    requires TidyLine(h) && Opens(h) && TidyLine(t) && !Opens(t) && Name(t) == None
    ensures Tidy([h] + [t]) && KeysHere([h] + [t]) == {} && Names([h] + [t]) == {Fold(Name(h).value)}
  {
    hide KeyOf, Name, Fold, Opens, Entry, Sep;
    var e := [h] + [t];
    assert e[0] == h && e[1..] == [t] && [t][1..] == [];
    assert KeysHere([t][1..]) == {} && Tidy([t][1..]) && Names([t][1..]) == {};
    assert Tidy([t]) && Names([t]) == {};
  }

  lemma HeaderOpens(t: string, s: string)
    requires IsHeader(t, s)
    ensures Opens(t)
  {
  }

  lemma OtherName(t: string, s: string)
    requires !IsHeader(t, s)
    ensures Name(t).Some? ==> Fold(Name(t).value) != Fold(s)
    ensures !Opens(t) ==> Name(t) == None
  {
  }

  lemma {:induction false} NextHeaderTidy(lines: seq<string>)
    requires Tidy(lines)
    ensures Tidy(FromNextHeader(lines)) && Names(FromNextHeader(lines)) == Names(lines)
    ensures KeysHere(FromNextHeader(lines)) == {}
  {
    hide TidyLine, KeyOf, Name, Entry, Fold;
    if lines != [] && !Opens(lines[0]) {
      NoName(lines[0]);
      NextHeaderTidy(lines[1..]);
    }
  }

  lemma {:induction false} EraseTidy(lines: seq<string>, s: string)
    requires Tidy(lines)
    ensures Tidy(Erase(lines, s)) && Names(Erase(lines, s)) <= Names(lines)
    ensures s != "" ==> KeysHere(Erase(lines, s)) == KeysHere(lines)
  {
    hide TidyLine, KeyOf, Name, Entry, Fold, Opens;
    if s == "" {
      NextHeaderTidy(lines);
    } else if lines != [] {
      if IsHeader(lines[0], s) {
        NextHeaderTidy(lines[1..]);
        HeaderOpens(lines[0], s);
      } else {
        EraseTidy(lines[1..], s);
        assert ([lines[0]] + Erase(lines[1..], s))[1..] == Erase(lines[1..], s);
      }
    }
  }

  // ---- Deleted is gone -----------------------------------------------------------------------------

  lemma {:induction false} NotHere(lines: seq<string>, k: string)
    requires Fold(k) !in KeysHere(lines)
    ensures LookupHere(lines, k) == None
  {
    hide KeyOf, Entry, Fold, ValueOf;
    if lines != [] && !Opens(lines[0]) {
      NotHere(lines[1..], k);
    }
  }

  lemma {:induction false} NoSection(lines: seq<string>, s: string)
    requires s != "" && Fold(s) !in Names(lines)
    ensures Behind(lines, s) == None
  {
    hide Name, Fold;
    if lines != [] {
      NoSection(lines[1..], s);
    }
  }

  lemma {:induction false} BehindTidy(lines: seq<string>, s: string)
    requires Tidy(lines) && Behind(lines, s).Some?
    ensures Tidy(Behind(lines, s).value)
  {
    hide TidyLine, Name, Fold, KeyOf;
    if s != "" && lines != [] && !IsHeader(lines[0], s) {
      BehindTidy(lines[1..], s);
    }
  }

  lemma Deleted(lines: seq<string>, s: string, k: string)
    requires Tidy(lines) && GoodSection(s) && GoodKey(k)
    ensures Lookup(Edit(lines, s, k, None), s, k) == None
  {
    EditBehind(lines, s, k, None);
    if Behind(lines, s).Some? {
      BehindTidy(lines, s);
      EditHereTidy(Behind(lines, s).value, k, None);
      NotHere(EditHere(Behind(lines, s).value, k, None), k);
    }
  }

  lemma {:induction false} Erased(lines: seq<string>, s: string, k: string)
    requires Tidy(lines)
    ensures Lookup(Erase(lines, s), s, k) == None
  {
    if s == "" {
      NextHeaderKeeps(lines, "", k);
    } else if lines != [] {
      hide TidyLine, KeyOf, Entry, Fold, LookupHere;
      if IsHeader(lines[0], s) {
        NextHeaderTidy(lines[1..]);
        NoSection(FromNextHeader(lines[1..]), s);
      } else {
        Erased(lines[1..], s, k);
        assert ([lines[0]] + Erase(lines[1..], s))[1..] == Erase(lines[1..], s);
      }
    }
  }

  lemma {:induction false} TidyIsEditable(lines: seq<string>, s: string, k: string)
    requires Tidy(lines)
    ensures Editable(lines, s, k)
  {
    if Behind(lines, s).Some? {
      BehindTidy(lines, s);
      if LineHere(Behind(lines, s).value, k).Some? {
        TidyLineHere(Behind(lines, s).value, k);
      }
    }
  }

  lemma {:induction false} TidyLineHere(lines: seq<string>, k: string)
    requires Tidy(lines) && LineHere(lines, k).Some?
    ensures TidyLine(LineHere(lines, k).value) && !Opens(LineHere(lines, k).value)
  {
    hide TidyLine, KeyOf, Entry, Fold, Name;
    if !HasKey(lines[0], k) {
      TidyLineHere(lines[1..], k);
    }
  }

  // ---- Runs ----------------------------------------------------------------------------------------

  lemma KeepsTidy(f: File, op: Op)
    requires TidyFile(f) && Good(op)
    ensures TidyFile(Apply(f, op))
  {
    hide Tidy, Edit, Erase, Lookup;
    match f {
      case Some(lines) =>
        match op {
          case Set(s, k, v) => EditTidy(lines, s, k, Some(v));
          case Delete(s, k) => EditTidy(lines, s, k, None);
          case Clear(s) => EraseTidy(lines, s);
        }
      case None =>
        if op.Set? {
          NewFileIs(op.section, op.key, op.value);
          NothingTidy();
          EditTidy([], op.section, op.key, Some(op.value));
        }
    }
  }

  lemma NothingTidy()
    ensures Tidy([])
  {
  }

  /** What one operation does to one lookup. */
  lemma OneStep(f: File, op: Op, s: string, k: string)
    requires TidyFile(f) && Good(op)
    ensures Gets(Apply(f, op), s, k)
            == match op
               case Set(s0, k0, v) =>
                  if Fold(s) == Fold(s0) && Fold(k) == Fold(k0) then Some(v) else Gets(f, s, k)
               case Delete(s0, k0) => if Fold(s) == Fold(s0) && Fold(k) == Fold(k0) then None else Gets(f, s, k)
               case Clear(s0) => if Fold(s) == Fold(s0) then None else Gets(f, s, k)
  {
    hide Tidy, Edit, Erase, Lookup, Fold, Editable;
    match f {
      case Some(lines) => OneStepLines(lines, op, s, k);
      case None =>
        if op.Set? {
          NewFileIs(op.section, op.key, op.value);
          NothingThere(s, k);
          NothingTidy();
          if Fold(s) == Fold(op.section) && Fold(k) == Fold(op.key) {
            PutGetNew(op.section, op.key, op.value);
            LookupFolded(Edit([], op.section, op.key, Some(op.value)), s, k, op.section, op.key);
          } else {
            EditFrame([], op.section, op.key, Some(op.value), s, k);
          }
        }
    }
  }

  lemma OneStepLines(lines: seq<string>, op: Op, s: string, k: string)
    requires Tidy(lines) && Good(op)
    ensures Gets(Apply(Some(lines), op), s, k)
            == match op
               case Set(s0, k0, v) =>
                  if Fold(s) == Fold(s0) && Fold(k) == Fold(k0) then Some(v) else Lookup(lines, s, k)
               case Delete(s0, k0) => if Fold(s) == Fold(s0) && Fold(k) == Fold(k0) then None else Lookup(lines, s, k)
               case Clear(s0) => if Fold(s) == Fold(s0) then None else Lookup(lines, s, k)
  {
    hide Tidy, Edit, Erase, Lookup, Fold, Editable;
    match op {
      case Set(s0, k0, v) =>
        if Fold(s) == Fold(s0) && Fold(k) == Fold(k0) {
          TidyIsEditable(lines, s0, k0);
          PutGetExactly(lines, s0, k0, v);
          LookupFolded(Puts(Some(lines), s0, Some(k0), Some(v)).value, s, k, s0, k0);
        } else {
          EditFrame(lines, s0, k0, Some(v), s, k);
        }
      case Delete(s0, k0) =>
        if Fold(s) == Fold(s0) && Fold(k) == Fold(k0) {
          Deleted(lines, s0, k0);
          LookupFolded(Edit(lines, s0, k0, None), s, k, s0, k0);
        } else {
          EditFrame(lines, s0, k0, None, s, k);
        }
      case Clear(s0) =>
        if Fold(s) == Fold(s0) {
          Erased(lines, s0, k);
          LookupFolded(Erase(lines, s0), s, k, s0, k);
        } else {
          EraseFrame(lines, s0, s, k);
        }
    }
  }

  lemma KeepsAgreement(f: File, m: Entries, op: Op)
    requires TidyFile(f) && Good(op) && Agrees(f, m)
    ensures Agrees(Apply(f, op), Update(m, op))
  {
    forall s: string, k: string
      ensures Gets(Apply(f, op), s, k) == At(Update(m, op), s, k)
    {
      OneStep(f, op, s, k);
      hide Fold, Gets, Apply, TidyFile;
      assert Gets(f, s, k) == At(m, s, k);
    }
    hide Gets, Apply, Update, At;
  }

  /** After any settings, deletions and erased sections all lookups agree with the map, if they did before. */
  lemma {:induction false} RunAgrees(f: File, m: Entries, ops: seq<Op>)
    requires TidyFile(f) && Agrees(f, m) && forall i | 0 <= i < |ops| :: Good(ops[i])
    ensures Agrees(Run(f, ops), UpdateAll(m, ops)) && TidyFile(Run(f, ops))
    decreases |ops|
  {
    if ops != [] {
      KeepsTidy(f, ops[0]);
      KeepsAgreement(f, m, ops[0]);
      hide TidyFile, Agrees, Apply, Update, Good;
      RunAgrees(Apply(f, ops[0]), Update(m, ops[0]), ops[1..]);
    }
  }

  /**
   * After any sequence of settings, deletions and erased sections, starting from a file that does not exist, every
   * lookup agrees with the map of the last values put.
   */
  lemma FileIsMap(ops: seq<Op>, s: string, k: string)
    requires forall i | 0 <= i < |ops| :: Good(ops[i])
    ensures Gets(Run(None, ops), s, k) == At(UpdateAll(map[], ops), s, k)
  {
    RunAgrees(None, map[], ops);
  }
}

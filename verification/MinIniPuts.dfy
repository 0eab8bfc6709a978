/**
 * Rewriting an INI file: it is read line by line and written, edited, to another one that replaces it.
 */
module MinIniPuts {
  import opened IniSpec
  import opened IniLines
  import opened IniText
  import opened IniList
  import opened MinIni

  function Change(lines: seq<string>, section: string, key: Option<string>, value: Option<string>): seq<string> {
    if key.None? then Erase(lines, section) else Edit(lines, section, key.value, value)
  }

  function ChangeHere(lines: seq<string>, key: Option<string>, value: Option<string>): seq<string> {
    if key.None? then FromNextHeader(lines) else EditHere(lines, key.value, value)
  }

  // ---- Writing lines -------------------------------------------------------------------------------

  /** A new entry in front of a header, which is not cut, is copied later as it was written. */
  predicate Settles(key: Option<string>, value: Option<string>) {
    key.Some? && value.Some? ==> Sound(key.value + "=" + value.value + "\n")
  }

  /** An entry that fits does. */
  lemma FittingSettles(key: string, value: string)
    requires |key| + |value| <= INI_BUFFERSIZE - 3
    ensures Settles(Some(key), Some(value))
  {
    ShortSound(key + "=" + value + "\n");
    hide Sound;
  }

  lemma HeaderText(out: string, section: string)
    requires Aligned(out) && section != ""
    ensures var h := Header(section);
      && h == "[" + Clip(section, INI_BUFFERSIZE - 5) + "]"
      && Aligned(out + h + "\n") && Content(out + h + "\n") == Content(out) + HeaderLines(section)
      && (Sound(out) ==> Sound(out + h + "\n"))
  {
    WriteText(out, Header(section));
    ShortSound(Header(section) + "\n");
    hide Content, Aligned, Sound;
  }

  lemma EntryText(out: string, key: string, value: string)
    requires Aligned(out)
    ensures var k := Clip(key, INI_BUFFERSIZE - 4);
      var a := k + "=" + Clip(value, INI_BUFFERSIZE - 4 - |k|);
      && Aligned(out + a + "\n") && Content(out + a + "\n") == Content(out) + NewLines(key, Some(value))
      && (Sound(out) ==> Sound(out + a + "\n"))
  {
    WriteText(out, Assignment(key, value));
    ShortSound(Assignment(key, value) + "\n");
    hide Content, Aligned, Sound;
  }

  method WriteSection(w: Writer, section: string)
    requires Aligned(w.text)
    modifies w
    ensures Aligned(w.text) && Content(w.text) == Content(old(w.text)) + HeaderLines(section)
    ensures Sound(old(w.text)) ==> Sound(w.text)
  {
    hide Content, Aligned, Sound, Clip;
    if section != "" {
      HeaderText(w.text, section);
      w.Write("[" + Clip(section, INI_BUFFERSIZE - 5) + "]");
      w.Write("\n");
    }
  }

  method WriteKey(w: Writer, key: string, value: string)
    requires Aligned(w.text)
    modifies w
    ensures Aligned(w.text) && Content(w.text) == Content(old(w.text)) + NewLines(key, Some(value))
    ensures Sound(old(w.text)) ==> Sound(w.text)
  {
    EntryText(w.text, key, value);
    var k := Clip(key, INI_BUFFERSIZE - 4);
    var v := Clip(value, INI_BUFFERSIZE - 4 - |k|);
    hide *;
    w.Write(k + "=" + v);
    w.Write("\n");
  }

  /** Copies a piece that is not blank, a header behind an empty line if asked for. */
  method CopyLine(w: Writer, sp: string, spaced: bool, ghost line: string)
    requires Aligned(w.text) && APiece(line) && sp == SkipLeading(line) != ""
    modifies w
    ensures Content(w.text) == Content(old(w.text)) + NonBlank(line)
    ensures Keeps(line) && Ends(line) ==> Aligned(w.text)
    ensures Sound(old(w.text)) ==> Sound(w.text)
  {
    hide *;
    ContentClosed(w.text);
    if sp[0] == '[' && spaced {
      w.Write("\n");
    }
    CopyPiece(w.text, line);
    w.Write(sp);
  }

  lemma Regroup(a: seq<string>, b: seq<string>, c: seq<string>)
    ensures a + (b + c) == (a + b) + c
  {
  }

  /** Copies the line if it is to be kept and is not blank; after is what the rest of the file will be. */
  method KeepLine(w: Writer, sp: string, keep: bool, spaced: bool, ghost line: string, ghost after: seq<string>)
    requires Aligned(w.text) && APiece(line) && sp == SkipLeading(line)
    modifies w
    ensures (Keeps(line) && Ends(line) ==> Aligned(w.text)) && (Sound(old(w.text)) ==> Sound(w.text))
    ensures Content(w.text) + after == Content(old(w.text)) + ((if keep then NonBlank(line) else []) + after)
  {
    hide *;
    ghost var out := Content(w.text);
    LineUnderstood(line, sp);
    Regroup(out, NonBlank(line), after);
    if keep && sp != "" {
      CopyLine(w, sp, spaced, line);
    } else {
      assert out + [] == out;
      assert [] + after == after;
    }
  }

  // ---- Looking for the section ---------------------------------------------------------------------

  /** A line that is the header of the section. */
  predicate StartsSection(sp: string, section: string) {
    var ep := Find(sp, ']');
    sp != "" && sp[0] == '[' && ep < |sp| && Fold(sp[1..ep]) == Fold(section)
  }

  method IsSection(sp: string, section: string) returns (same: bool)
    ensures same == StartsSection(sp, section)
  {
    hide Fold, Find;
    var ep := Position(sp, ']');
    same := sp != "" && sp[0] == '[' && ep < |sp| && Fold(sp[1..ep]) == Fold(section);
  }

  lemma SectionLine(line: string, sp: string, rest: seq<string>, section: string, key: Option<string>,
                    value: Option<string>)
    requires sp == SkipLeading(line) && section != ""
    ensures var found := StartsSection(sp, section);
      Change(NonBlank(line) + rest, section, key, value)
      == (if !found || key.Some? then NonBlank(line) else [])
         + if found then ChangeHere(rest, key, value) else Change(rest, section, key, value)
  {
    StartsIs(sp, section);
    hide *;
    LineUnderstood(line, sp);
    SkippedBlank(rest);
    SkippedBlank(Change(rest, section, key, value));
    if sp != "" {
      HeaderIs(Trim(line), section);
      ChangeFirst(Trim(line), rest, section, key, value);
    }
  }

  lemma StartsIs(sp: string, section: string)
    ensures sp == "" ==> !StartsSection(sp, section)
    ensures StartsSection(sp, section) <==> Name(sp).Some? && Fold(Name(sp).value) == Fold(section)
  {
    if sp != "" { NameIs(sp, Find(sp, ']')); }
    hide Fold, Find;
  }

  lemma SkippedBlank(rest: seq<string>)
    ensures [] + rest == rest
  {
  }

  lemma HeaderIs(t: string, section: string)
    ensures IsHeader(t, section) <==> Name(t).Some? && Fold(Name(t).value) == Fold(section)
  {
    hide Name, Fold;
  }

  /** What a change does to the first line of what is left of the file, on the way to the section. */
  lemma ChangeFirst(t: string, rest: seq<string>, section: string, key: Option<string>, value: Option<string>)
    requires section != ""
    ensures Change([t] + rest, section, key, value)
            == if IsHeader(t, section) then (if key.Some? then [t] else []) + ChangeHere(rest, key, value)
               else [t] + Change(rest, section, key, value)
  {
    hide IsHeader, EditHere, FromNextHeader;
    FirstAndRest(t, rest);
    assert [] + FromNextHeader(rest) == FromNextHeader(rest);
  }

  /** Copies the lines up to the section's header, and the header unless the section is erased. */
  method CopyToSection(r: Reader, w: Writer, section: string, key: Option<string>, value: Option<string>)
      returns (found: bool)
    requires section != "" && Steady(r.left) && Aligned(w.text)
    modifies r, w
    ensures Steady(r.left) && (Aligned(w.text) || r.left == "") && (Sound(old(w.text)) ==> Sound(w.text))
    ensures Content(old(w.text)) + Change(Content(old(r.left)), section, key, value)
            == Content(w.text)
               + if found then ChangeHere(Content(r.left), key, value) else Change([], section, key, value)
  {
    ghost var was, goal := w.text, Content(w.text) + Change(Content(r.left), section, key, value);
    var count := 0;
    found := false;
    hide *;
    while true
      invariant Steady(r.left) && (Aligned(w.text) || r.left == "") && (Sound(was) ==> Sound(w.text))
      invariant Content(w.text) + Change(Content(r.left), section, key, value) == goal
      decreases |r.left|
    {
      var ok, line := r.Read();
      if !ok {
        NothingRead();
        return;
      }
      var sp := SkipBlanks(line);
      found := IsSection(sp, section);
      SectionLine(line, sp, Content(r.left), section, key, value);
      ghost var after := if found then ChangeHere(Content(r.left), key, value)
                         else Change(Content(r.left), section, key, value);
      KeepLine(w, sp, !found || key.Some?, count > 0, line, after);
      if (!found || key.Some?) && sp != "" {
        count := count + 1;
      }
      if found {
        return;
      }
    }
  }

  lemma NothingRead()
    ensures Content("") == []
  {
  }

  // ---- Looking for the key -------------------------------------------------------------------------

  predicate IsKey(sp: string, ep: nat, key: Option<string>) {
    key.Some? && ep < |sp| && Fold(sp[..ep]) == Fold(key.value)
  }

  function InFront(key: Option<string>, value: Option<string>): seq<string> {
    if key.Some? then Inserted(key.value, value) else []
  }

  function Replaced(key: Option<string>, value: Option<string>): seq<string> {
    if key.Some? then NewLines(key.value, value) else []
  }

  lemma KeyLine(line: string, sp: string, ep: nat, rest: seq<string>, key: Option<string>, value: Option<string>)
    requires sp == SkipLeading(line) && ep == Sep(sp)
    ensures sp == "" ==> NonBlank(line) == [] && !IsKey(sp, ep, key)
    ensures var all := ChangeHere(NonBlank(line) + rest, key, value);
      all == if Opens(sp) then InFront(key, value) + (NonBlank(line) + rest)
             else if IsKey(sp, ep, key) then Replaced(key, value) + rest
             else (if key.Some? then NonBlank(line) else []) + ChangeHere(rest, key, value)
  {
    hide *;
    LineUnderstood(line, sp);
    SkippedBlank(rest);
    NothingIsKey(sp, ep, key);
    SkippedBlank(ChangeHere(rest, key, value));
    if sp != "" {
      RawKeyIs(Trim(line), sp, ep, key);
      ChangeFirstHere(Trim(line), rest, key, value);
    }
  }

  lemma NothingIsKey(sp: string, ep: nat, key: Option<string>)
    ensures sp == "" ==> !IsKey(sp, ep, key) && !Opens(sp)
  {
  }

  /** What a change does to the first line of what is left of the section. */
  lemma ChangeFirstHere(t: string, rest: seq<string>, key: Option<string>, value: Option<string>)
    ensures ChangeHere([t] + rest, key, value)
            == if Opens(t) then InFront(key, value) + ([t] + rest)
               else if key.Some? && HasRawKey(t, key.value) then Replaced(key, value) + rest
               else (if key.Some? then [t] else []) + ChangeHere(rest, key, value)
  {
    hide Opens, HasRawKey, NewLines, Inserted;
    FirstAndRest(t, rest);
    assert [] + ([t] + rest) == [t] + rest;
    assert [] + FromNextHeader(rest) == FromNextHeader(rest);
  }

  lemma RawKeyIs(t: string, sp: string, ep: nat, key: Option<string>)
    requires ep == Sep(sp) && (Sep(t) < |t| <==> Sep(sp) < |sp|)
    requires Sep(sp) < |sp| ==> Sep(t) == Sep(sp) && t[..Sep(t)] == sp[..Sep(sp)]
    ensures IsKey(sp, ep, key) <==> key.Some? && HasRawKey(t, key.value)
  {
  }

  lemma NothingChangedHere(key: Option<string>, value: Option<string>)
    ensures ChangeHere(Content(""), key, value) == Replaced(key, value)
  {
  }

  /** Copies the lines in front of the key's entry or of the next header; nothing is copied when a section is erased. */
  method CopyToKey(r: Reader, w: Writer, key: Option<string>, value: Option<string>)
      returns (ok: bool, sp: string, ghost line: string)
    requires Steady(r.left) && (Aligned(w.text) || r.left == "")
    modifies r, w
    ensures Steady(r.left) && (Aligned(w.text) || r.left == "") && (Sound(old(w.text)) ==> Sound(w.text))
    ensures ok ==> Aligned(w.text) && APiece(line) && sp == SkipLeading(line)
                   && ((Keeps(line) && Ends(line)) || r.left == "")
    ensures ok ==> Opens(sp) || IsKey(sp, Sep(sp), key)
    ensures var all := Content(old(w.text)) + ChangeHere(Content(old(r.left)), key, value);
      && (!ok ==> r.left == "" && all == Content(w.text) + Replaced(key, value))
      && (ok && Opens(sp) ==>
            all == Content(w.text) + (InFront(key, value) + (NonBlank(line) + Content(r.left))))
      && (ok && !Opens(sp) ==> all == Content(w.text) + (Replaced(key, value) + Content(r.left)))
  {
    ghost var was, goal := w.text, Content(w.text) + ChangeHere(Content(r.left), key, value);
    hide *;
    while true
      invariant Steady(r.left) && (Aligned(w.text) || r.left == "") && (Sound(was) ==> Sound(w.text))
      invariant Content(w.text) + ChangeHere(Content(r.left), key, value) == goal
      decreases |r.left|
    {
      NothingChangedHere(key, value);
      var l;
      ok, l := r.Read();
      line := l;
      if !ok {
        sp := "";
        return;
      }
      sp := SkipBlanks(l);
      var ep := Separator(sp);
      KeyLine(l, sp, ep, Content(r.left), key, value);
      if Opens(sp) || IsKey(sp, ep, key) {
        return;
      }
      KeepLine(w, sp, key.Some?, false, l, ChangeHere(Content(r.left), key, value));
    }
  }

  /** Makes the change in the section the reader is in. */
  method RewriteSection(r: Reader, w: Writer, section: string, key: Option<string>, value: Option<string>)
    requires Steady(r.left) && (Aligned(w.text) || r.left == "")
    modifies r, w
    ensures Steady(r.left) && (Aligned(w.text) || r.left == "")
    ensures Sound(old(w.text)) && Settles(key, value) ==> Sound(w.text)
    ensures Content(w.text) + Content(r.left) == Content(old(w.text)) + ChangeHere(Content(old(r.left)), key, value)
  {
    hide *;
    var ok, sp;
    ghost var line;
    ok, sp, line := CopyToKey(r, w, key, value);
    ghost var out := Content(w.text);
    ReplacedIs(key, value);
    if !ok {
      NothingRead();
      if key.Some? && value.Some? {
        ContentClosed(w.text);
        w.Write("\n");
        WriteKey(w, key.value, value.value);
      }
    } else if Opens(sp) {
      OpensNotEmpty(sp);
      if key.Some? && value.Some? {
        InsertedText(w.text, key.value, value.value);
        w.Write(key.value);
        w.Write("=");
        w.Write(value.value);
        w.Write("\n\n");
      }
      ghost var before := Content(w.text);
      CopyLine(w, sp, false, line);
      Regroup(out, InFront(key, value), NonBlank(line) + Content(r.left));
      Regroup(before, NonBlank(line), Content(r.left));
    } else {
      if key.Some? && value.Some? {
        WriteKey(w, key.value, value.value);
      }
      Regroup(out, Replaced(key, value), Content(r.left));
    }
  }

  lemma ReplacedIs(key: Option<string>, value: Option<string>)
    ensures key.Some? && value.Some? ==> Replaced(key, value) == NewLines(key.value, value)
                                         && InFront(key, value) == Inserted(key.value, value)
    ensures !(key.Some? && value.Some?) ==> Replaced(key, value) == [] && InFront(key, value) == []
    ensures forall out: seq<string> :: out + [] == out
  {
    hide Content;
  }

  lemma OpensNotEmpty(sp: string)
    requires Opens(sp)
    ensures sp != ""
  {
  }

  lemma InsertedText(out: string, key: string, value: string)
    requires Aligned(out)
    ensures var text := out + key + "=" + value + "\n\n";
      && Aligned(text) && Content(text) == Content(out) + Inserted(key, Some(value))
      && (Sound(out) && Settles(Some(key), Some(value)) ==> Sound(text))
  {
    SettlesIs(key, value);
    hide *;
    var a := key + "=" + value;
    WriteText(out, a);
    ContentClosed(out + a + "\n");
    InPieces(out, key, value);
  }

  lemma SettlesIs(key: string, value: string)
    ensures Settles(Some(key), Some(value)) <==> Sound(key + "=" + value + "\n")
    ensures Inserted(key, Some(value)) == Content(key + "=" + value + "\n")
  {
    hide Sound, Content;
  }

  lemma InPieces(out: string, key: string, value: string)
    ensures out + key + "=" + value + "\n\n" == out + (key + "=" + value) + "\n" + "\n"
  {
    assert "\n\n" == "\n" + "\n";
  }

  /** Copies what is left, an empty line in front of every header. */
  method CopyRest(r: Reader, w: Writer)
    requires Steady(r.left) && (Aligned(w.text) || r.left == "")
    modifies r, w
    ensures Sound(old(w.text)) ==> Sound(w.text)
    ensures Content(w.text) == Content(old(w.text)) + Content(old(r.left))
  {
    ghost var was, goal := w.text, Content(w.text) + Content(r.left);
    hide *;
    while true
      invariant Steady(r.left) && (Aligned(w.text) || r.left == "") && (Sound(was) ==> Sound(w.text))
      invariant Content(w.text) + Content(r.left) == goal
      decreases |r.left|
    {
      var ok, line := r.Read();
      if !ok {
        NothingRead();
        assert Content(w.text) + [] == Content(w.text);
        return;
      }
      var sp := SkipBlanks(line);
      ghost var out := Content(w.text);
      Regroup(out, NonBlank(line), Content(r.left));
      if sp != "" {
        CopyLine(w, sp, true, line);
      } else {
        LineUnderstood(line, sp);
        assert out + [] == out;
      }
    }
  }

  // ---- Setting, deleting, erasing ------------------------------------------------------------------

  /** Writes the changed file from the one that is read. */
  method Rewrite(r: Reader, w: Writer, section: string, key: Option<string>, value: Option<string>)
    requires Steady(r.left) && w.text == ""
    modifies r, w
    ensures Settles(key, value) ==> Sound(w.text)
    ensures Content(w.text) == Change(Content(old(r.left)), section, key, value)
  {
    NothingWritten(w.text);
    NoSectionNamed(Content(r.left), section, key, value);
    hide *;
    var found := true;
    if section != "" {
      found := CopyToSection(r, w, section, key, value);
    }
    if !found {
      if key.Some? && value.Some? {
        ContentClosed(w.text);
        w.Write("\n");
        ghost var out := Content(w.text);
        WriteSection(w, section);
        WriteKey(w, key.value, value.value);
        Regroup(out, HeaderLines(section), NewLines(key.value, value));
      }
      return;
    }
    RewriteSection(r, w, section, key, value);
    CopyRest(r, w);
  }

  lemma NothingWritten(text: string)
    requires text == ""
    ensures Aligned(text) && Sound(text) && Content(text) == []
    ensures forall lines: seq<string> :: [] + lines == lines
  {
  }

  lemma NoSectionNamed(lines: seq<string>, section: string, key: Option<string>, value: Option<string>)
    ensures section == "" ==> Change(lines, section, key, value) == ChangeHere(lines, key, value)
    ensures section != "" ==> Change([], section, key, value)
                              == if key.Some? && value.Some? then HeaderLines(section) + NewLines(key.value, value)
                                 else []
    ensures forall out: seq<string> :: out + [] == out
  {
    hide EditHere, FromNextHeader, HeaderLines, NewLines;
  }

  lemma PutsIs(f: File, section: string, key: Option<string>, value: Option<string>)
    ensures f.Some? ==> IniSpec.Puts(f, section, key, value)
                        == if Unchanged(f, section, key, value) then f else Some(Change(f.value, section, key, value))
    ensures f.None? && key.Some? && value.Some? ==>
              IniSpec.Puts(f, section, key, value)
              == Some(HeaderLines(section) + NewLines(key.value, value))
    ensures f.None? && !(key.Some? && value.Some?) ==> IniSpec.Puts(f, section, key, value) == None
  {
    hide Lookup, Edit, Erase, HeaderLines, NewLines;
  }

  /** A value that is found fits the buffer. */
  lemma {:induction false} FoundFits(lines: seq<string>, key: string)
    requires forall i | 0 <= i < |lines| :: |lines[i]| < INI_BUFFERSIZE
    ensures LookupHere(lines, key).Some? ==> |LookupHere(lines, key).value| < INI_BUFFERSIZE - 1
  {
    hide HasKey, Opens, Sep, Trim;
    if lines != [] && !Opens(lines[0]) {
      if HasKey(lines[0], key) {
        KeyHasSeparator(lines[0], key);
        TrimShortens(lines[0][Sep(lines[0]) + 1..]);
      } else {
        FoundFits(lines[1..], key);
      }
    }
  }

  lemma KeyHasSeparator(t: string, key: string)
    requires HasKey(t, key)
    ensures Sep(t) < |t|
  {
  }

  lemma {:induction false} BehindWithin(lines: seq<string>, section: string)
    ensures Behind(lines, section).Some? ==>
              var rest := Behind(lines, section).value; |rest| <= |lines| && rest == lines[|lines| - |rest|..]
  {
    hide IsHeader;
    if section != "" && lines != [] && !IsHeader(lines[0], section) { BehindWithin(lines[1..], section); }
  }

  lemma {:induction false} LinesFit(text: string)
    ensures forall i | 0 <= i < |Content(text)| :: |Content(text)[i]| < INI_BUFFERSIZE
    decreases |text|
  {
    if text != "" {
      var n := ReadLength(text);
      PiecesStep(text);
      PieceRead(text);
      ContentStep(text, n);
      TrimShortens(text[..n]);
      LinesFit(text[n..]);
      hide ReadLength, Content, Trim;
    }
  }

  lemma ValueFits(text: string, section: string, key: string)
    ensures var v := Lookup(Content(text), section, key);
      v.Some? ==> |v.value| < INI_BUFFERSIZE - 1 && Clip(v.value, INI_BUFFERSIZE - 1) == v.value
  {
    LinesFit(text);
    BehindWithin(Content(text), section);
    hide Content, LookupHere;
    if Behind(Content(text), section).Some? { FoundFits(Behind(Content(text), section).value, key); }
  }

  /** Whether a lookup gives just this value. */
  method HasValue(file: IniFile, section: string, key: string, value: string) returns (same: bool)
    requires file.present
    ensures same <==> Lookup(Content(file.text), section, key) == Some(value)
  {
    hide Search, Lookup, Content, Clip;
    var r := new Reader(file.text);
    GetsIsLookup(Content(file.text), section, key);
    ValueFits(file.text, section, key);
    var found, buffer := GetKeyString(r, section, Some(key), -1, -1, INI_BUFFERSIZE);
    same := found && buffer == value;
  }

  lemma SoundIsSteady(text: string)
    requires Sound(text)
    ensures Steady(text)
  {
    hide Pieces, Keeps;
  }

  /** Sets an entry, deletes it if there is no value, or erases the section if there is no key. */
  method Puts(file: IniFile, section: string, key: Option<string>, value: Option<string>) returns (r: int)
    requires file.Valid()
    modifies file
    ensures r == 1 && file.Abs() == IniSpec.Puts(old(file.Abs()), section, key, value)
    ensures Settles(key, value) || Unchanged(old(file.Abs()), section, key, value) ==> file.Valid()
    ensures Unchanged(old(file.Abs()), section, key, value) ==> file.text == old(file.text)
  {
    ghost var f := file.Abs();
    PutsIs(f, section, key, value);
    hide Content, Lookup, Change, IniSpec.Puts, Aligned, Sound, Steady, Settles, HeaderLines, NewLines;
    r := 1;
    if !file.present {
      if key.Some? && value.Some? {
        var w := new Writer();
        NothingWritten(w.text);
        WriteSection(w, section);
        WriteKey(w, key.value, value.value);
        assert [] + HeaderLines(section) == HeaderLines(section);
        SoundIsSteady(w.text);
        file.present, file.text := true, w.text;
      }
      return;
    }
    if key.Some? && value.Some? {
      var same := HasValue(file, section, key.value, value.value);
      if same {
        return;
      }
    }
    var reader := new Reader(file.text);
    var w := new Writer();
    Rewrite(reader, w, section, key, value);
    if Sound(w.text) { SoundIsSteady(w.text); }
    file.text := w.text;
  }
}

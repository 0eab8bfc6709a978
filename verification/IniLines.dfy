/**
 * Setting, deleting and erasing against looking up, on the lines of any file.
 */
module IniLines {
  import opened IniSpec
  import opened IniText

  // ---- Names and values that survive the file ------------------------------------------------------

  predicate GoodSection(s: string) {
    ']' !in s && OneLine(s) && |s| <= INI_BUFFERSIZE - 5
  }

  predicate GoodKey(k: string) {
    Trimmed(k) && OneLine(k) && '=' !in k && !Opens(k) && !Comment(k)
  }

  predicate Quoted(v: string) {
    v != "" && v[0] == '"' && v[|v| - 1] == '"'
  }

  predicate GoodValue(v: string) {
    Trimmed(v) && OneLine(v) && !Quoted(v)
  }

  predicate Fits(k: string, v: string) {
    |k| + |v| <= INI_BUFFERSIZE - 4
  }

  /** The value is there already. */
  predicate Unchanged(f: File, section: string, key: Option<string>, value: Option<string>) {
    f.Some? && key.Some? && value.Some? && Lookup(f.value, section, key.value) == value
  }

  // ---- Strings -------------------------------------------------------------------------------------

  lemma FoldBlank(c: char)
    ensures Blank(Lower(c)) <==> Blank(c)
    ensures (Lower(c) == ';' <==> c == ';') && (Lower(c) == '#' <==> c == '#')
  {
  }

  lemma FoldChars(a: string, b: string)
    requires Fold(a) == Fold(b)
    ensures |a| == |b|
    ensures forall i | 0 <= i < |a| :: Lower(a[i]) == Lower(b[i])
  {
    forall i | 0 <= i < |a| ensures |a| == |b| && Lower(a[i]) == Lower(b[i]) {
      assert Fold(a)[i] == Fold(b)[i];
    }
  }

  // ---- Lines ---------------------------------------------------------------------------------------

  lemma AssignmentText(k: string, v: string)
    ensures var t := k + "=" + v;
      |t| == |k| + 1 + |v| && t[..|k|] == k && t[|k|] == '=' && t[|k| + 1..] == v && t == k + ("=" + v)
  {
  }

  lemma AssignmentEnds(k: string, v: string)
    requires GoodKey(k) && GoodValue(v)
    ensures var t := k + "=" + v; !Opens(t) && !Comment(t) && Trimmed(t)
  {
    var t := k + "=" + v;
    assert k != "" ==> t[0] == k[0];
    assert v != "" ==> t[|t| - 1] == v[|v| - 1];
  }

  lemma AssignmentSep(k: string, v: string)
    requires '=' !in k
    ensures Sep(k + "=" + v) == |k|
  {
    AssignmentText(k, v);
    FindBehind(k, "=" + v, '=');
    assert ("=" + v)[0] == '=';
    assert Find("=" + v, '=') == 0;
  }

  lemma AssignmentRead(k: string, v: string)
    requires GoodKey(k) && GoodValue(v)
    ensures var t := k + "=" + v;
      && Sep(t) == |k| < |t| && t[..Sep(t)] == k && KeyOf(t) == k && ValueOf(t) == v
      && Entry(t) && !Opens(t) && Name(t).None? && Trimmed(t)
  {
    AssignmentText(k, v);
    AssignmentEnds(k, v);
    AssignmentSep(k, v);
    TrimmedStays(k);
    TrimmedStays(v);
    assert Unquote(v) == v;
    hide Sep, Trim, Opens, Comment, StripTrailing, SkipLeading, Trimmed, Unquote, Find;
  }

  /** A good entry that fits is read as it is written, wherever it is written. */
  lemma AssignmentFits(k: string, v: string)
    requires GoodKey(k) && GoodValue(v) && Fits(k, v)
    ensures Assignment(k, v) == k + "=" + v
    ensures NewLines(k, Some(v)) == Inserted(k, Some(v)) == [k + "=" + v]
  {
    AssignmentRead(k, v);
    LineAlone(k + "=" + v);
    hide Content, Sep, KeyOf, ValueOf, Entry, Opens, Name, Trimmed;
  }

  lemma HeaderFits(s: string)
    requires GoodSection(s)
    ensures HeaderLines(s) == if s == "" then [] else [Header(s)]
  {
    if s != "" {
      HeaderRead(s);
      LineAlone(Header(s));
    }
    hide Content, Opens, Name, Trimmed;
  }

  lemma HeaderRead(s: string)
    requires GoodSection(s)
    ensures Opens(Header(s)) && Name(Header(s)) == Some(s) && Trimmed(Header(s))
  {
    var t := Header(s);
    assert t == ("[" + s) + "]";
    FindBehind("[" + s, "]", ']');
    assert t[1..|s| + 1] == s;
  }

  /** A line an edit takes for the key's is one a lookup takes for it, and for no other key's. */
  lemma RawIsKey(t: string, k: string)
    requires GoodKey(k) && HasRawKey(t, k)
    ensures HasKey(t, k) && !Opens(t)
    ensures forall k2 | HasKey(t, k2) :: Fold(k2) == Fold(k)
  {
    var raw := t[..Sep(t)];
    FoldChars(raw, k);
    if raw != "" {
      FoldBlank(raw[|raw| - 1]);
      FoldBlank(k[|k| - 1]);
      FoldBlank(raw[0]);
      FoldBlank(k[0]);
      assert t[0] == raw[0];
      assert Lower(raw[0]) == Lower(k[0]);
      assert Lower(raw[|raw| - 1]) == Lower(k[|k| - 1]);
    }
    assert StripTrailing(raw) == raw;
  }

  // ---- Setting and getting -------------------------------------------------------------------------

  /** The line a lookup would read the value from. */
  function Line(lines: seq<string>, section: string, key: string): Option<string> {
    match Behind(lines, section)
    case None => None
    case Some(rest) => LineHere(rest, key)
  }

  function LineHere(lines: seq<string>, key: string): Option<string> {
    if lines == [] || Opens(lines[0]) then None
    else if HasKey(lines[0], key) then Some(lines[0])
    else LineHere(lines[1..], key)
  }

  /** An edit finds the entry: no blank stands between its key and the separator. */
  predicate Editable(lines: seq<string>, section: string, key: string) {
    match Line(lines, section, key)
    case None => true
    case Some(t) => Sep(t) > 0 ==> !Blank(t[Sep(t) - 1])
  }

  /** A lookup's line is an edit's line exactly if no blank stands before the separator. */
  lemma KeyIsRaw(t: string, k: string)
    requires HasKey(t, k)
    ensures HasRawKey(t, k) <==> (Sep(t) > 0 ==> !Blank(t[Sep(t) - 1]))
  {
    var raw := t[..Sep(t)];
    StripShortens(raw);
    FoldChars(KeyOf(t), k);
    if HasRawKey(t, k) {
      FoldChars(raw, k);
    }
  }

  lemma {:induction false} SetHere(lines: seq<string>, k: string, v: string)
    requires GoodKey(k) && GoodValue(v) && Fits(k, v)
    ensures var t := LineHere(lines, k);
      LookupHere(EditHere(lines, k, Some(v)), k)
      == if t.Some? && !HasRawKey(t.value, k) then LookupHere(lines, k) else Some(v)
  {
    AssignmentRead(k, v);
    AssignmentFits(k, v);
    hide Sep, KeyOf, ValueOf, Assignment, Content, Fold, Entry, HasRawKey;
    var a := k + "=" + v;
    assert HasKey(a, k);
    if lines == [] || Opens(lines[0]) {
    } else if HasRawKey(lines[0], k) {
      RawIsKey(lines[0], k);
    } else {
      SetHere(lines[1..], k, v);
      assert ([lines[0]] + EditHere(lines[1..], k, Some(v)))[1..] == EditHere(lines[1..], k, Some(v));
    }
  }

  predicate GoodEdit(k: string, v: Option<string>) {
    GoodKey(k) && (v.Some? ==> GoodValue(v.value) && Fits(k, v.value))
  }

  lemma {:induction false} EditBehind(lines: seq<string>, s: string, k: string, v: Option<string>)
    requires GoodSection(s) || Behind(lines, s).Some? || v.None?
    ensures Behind(Edit(lines, s, k, v), s)
            == match Behind(lines, s)
               case Some(rest) => Some(EditHere(rest, k, v))
               case None => if v.Some? then Some(NewLines(k, v)) else None
  {
    if s != "" {
      hide Name, Fold, EditHere, HeaderLines, NewLines;
      if lines == [] {
        if v.Some? {
          HeaderRead(s);
          HeaderFits(s);
          assert IsHeader(Header(s), s);
          assert ([Header(s)] + NewLines(k, v))[1..] == NewLines(k, v);
        }
      } else if IsHeader(lines[0], s) {
        assert ([lines[0]] + EditHere(lines[1..], k, v))[1..] == EditHere(lines[1..], k, v);
      } else {
        EditBehind(lines[1..], s, k, v);
        assert ([lines[0]] + Edit(lines[1..], s, k, v))[1..] == Edit(lines[1..], s, k, v);
      }
    }
  }

  /** What an edit leaves to be found. */
  lemma PutGives(lines: seq<string>, s: string, k: string, v: string)
    requires GoodSection(s) && GoodKey(k) && GoodValue(v) && Fits(k, v)
    ensures Lookup(Edit(lines, s, k, Some(v)), s, k) == if Editable(lines, s, k) then Some(v) else Lookup(lines, s, k)
  {
    EditBehind(lines, s, k, Some(v));
    match Behind(lines, s) {
      case None =>
        SetHere([], k, v);
      case Some(rest) =>
        SetHere(rest, k, v);
        LineFound(rest, k);
        if LineHere(rest, k).Some? {
          KeyIsRaw(LineHere(rest, k).value, k);
        }
    }
  }

  /**
   * What is put is found, in any file, exactly if the entry has no blank before its separator or has the value
   * already: otherwise the edit adds a second entry that a lookup never reaches.
   */
  lemma PutGetExactly(lines: seq<string>, s: string, k: string, v: string)
    requires GoodSection(s) && GoodKey(k) && GoodValue(v) && Fits(k, v)
    ensures Gets(Puts(Some(lines), s, Some(k), Some(v)), s, k) == Some(v)
            <==> Editable(lines, s, k) || Lookup(lines, s, k) == Some(v)
  {
    PutGives(lines, s, k, v);
    hide Lookup, Edit, Editable;
  }

  lemma {:induction false} LineFound(lines: seq<string>, k: string)
    ensures LineHere(lines, k).Some? <==> LookupHere(lines, k).Some?
    ensures LineHere(lines, k).Some? ==> HasKey(LineHere(lines, k).value, k)
  {
    if lines != [] && !Opens(lines[0]) && !HasKey(lines[0], k) {
      LineFound(lines[1..], k);
    }
  }

  /** In a file that does not exist yet, what is put is found. */
  lemma PutGetNew(s: string, k: string, v: string)
    requires GoodSection(s) && GoodKey(k) && GoodValue(v) && Fits(k, v)
    ensures Gets(Puts(None, s, Some(k), Some(v)), s, k) == Some(v)
  {
    EditBehind([], s, k, Some(v));
    SetHere([], k, v);
    hide LookupHere, EditHere, IsHeader, HeaderLines, NewLines;
    assert [] + NewLines(k, Some(v)) == NewLines(k, Some(v));
  }

  // ---- Any section, any value ----------------------------------------------------------------------

  /** A line with any value is an entry of the key. */
  lemma NamesKey(k: string, w: string)
    requires GoodKey(k)
    ensures var a := k + "=" + w; HasKey(a, k) && !Opens(a) && !Blank(a[0]) && ValueOf(a) == Unquote(Trim(w))
  {
    var a := k + "=" + w;
    AssignmentText(k, w);
    AssignmentSep(k, w);
    TrimmedStays(k);
    assert k != "" ==> a[0] == k[0];
    hide Sep, Trim, StripTrailing, Trimmed, Fold;
  }

  /** What is read at once of an entry that is written. */
  function FirstRead(k: string, w: string): string
    requires |k| <= INI_BUFFERSIZE - 4
  {
    var f := Find(w, '\n');
    w[..if |k| + f <= INI_BUFFERSIZE - 2 then f else INI_BUFFERSIZE - 2 - |k|]
  }

  lemma FirstLength(k: string, w: string)
    requires GoodKey(k) && |k| <= INI_BUFFERSIZE - 4
    ensures var x, u := k + "=" + w + "\n", FirstRead(k, w);
      x[..ReadLength(x)] == k + "=" + u || x[..ReadLength(x)] == k + "=" + u + "\n"
  {
    var x, f := k + "=" + w + "\n", Find(w, '\n');
    assert x == (k + "=") + (w + "\n");
    FindBehind(k + "=", w + "\n", '\n');
    FindAbsent(w, '\n');
    if f < |w| {
      FindWithin(w, "\n", '\n');
    } else {
      FindBehind(w, "\n", '\n');
      assert ("\n")[0] == '\n';
    }
    assert Find(w + "\n", '\n') == f;
    assert (w + "\n")[..f] == w[..f];
    hide Find;
  }

  /** An entry that is written is read as a line of its key, with what was read at once of its value. */
  lemma WrittenEntry(k: string, w: string)
    requires GoodKey(k) && |k| <= INI_BUFFERSIZE - 4
    ensures var lines := Content(k + "=" + w + "\n");
      && lines != [] && HasKey(lines[0], k) && !Opens(lines[0])
      && ValueOf(lines[0]) == Unquote(Trim(FirstRead(k, w)))
  {
    var x, u := k + "=" + w + "\n", FirstRead(k, w);
    var a := k + "=" + u;
    FirstLength(k, w);
    PiecesStep(x);
    NamesKey(k, u);
    TrimmedStart(a);
    LineEndTrimmed(a);
    Stripped(a);
    StrippedHead(a);
    hide Pieces, ReadLength, FirstRead, Sep, Trim, SkipLeading, StripTrailing, Fold, Unquote, Opens, Find;
    assert NonBlank(x[..ReadLength(x)]) == [StripTrailing(a)];
    StrippedKey(a, k);
  }

  lemma TrimmedStart(a: string)
    requires a != "" && !Blank(a[0])
    ensures Trim(a) == StripTrailing(a) != ""
  {
    StripKeepsFirst(a);
  }

  lemma StrippedKey(a: string, k: string)
    requires a != "" && !Blank(a[0]) && HasKey(a, k)
    ensures HasKey(StripTrailing(a), k)
  {
    Stripped(a);
    StrippedHead(a);
    hide Sep, StripTrailing, Fold, Comment;
    assert KeyOf(StripTrailing(a)) == KeyOf(a);
  }

  /** A part of a value is read as the value only if it is all of it, without blanks or quotes around it. */
  lemma PartIsAll(u: string, v: string)
    requires |u| <= |v| && u == v[..|u|]
    ensures Unquote(Trim(u)) == v <==> u == v && Trimmed(v) && !Quoted(v)
  {
    TrimShortens(u);
    if Trimmed(v) { TrimmedStays(v); }
    if Trim(u) == v { TrimIsTrimmed(u); }
    hide Trim;
  }

  lemma TrimIsTrimmed(u: string)
    ensures Trimmed(Trim(u))
  {
    var s := SkipLeading(u);
    SkippedEmpty(u);
    StripEnds(s);
    if s != "" { StripKeepsFirst(s); }
  }

  lemma {:induction false} StripEnds(s: string)
    ensures var t := StripTrailing(s); t != "" ==> !Blank(t[|t| - 1])
  {
    if s != "" && Blank(s[|s| - 1]) { StripEnds(s[..|s| - 1]); }
  }

  /** A new line gives the value back exactly if it is a good one that fits. */
  lemma NewValue(k: string, v: string)
    requires GoodKey(k) && |k| <= INI_BUFFERSIZE - 4
    ensures var lines := NewLines(k, Some(v));
      && lines != [] && HasKey(lines[0], k) && !Opens(lines[0])
      && (ValueOf(lines[0]) == v <==> GoodValue(v) && Fits(k, v))
  {
    var w := Clip(v, INI_BUFFERSIZE - 4 - |k|);
    var u := FirstRead(k, w);
    assert Assignment(k, v) == k + "=" + w;
    WrittenEntry(k, w);
    FindAbsent(w, '\n');
    PartIsAll(u, v);
    hide Find, Trim, Unquote, HasKey, Opens, Content, ValueOf;
  }

  /** In front of a header there is room for two characters more, since nothing is cut before it is read. */
  lemma InsertedValue(k: string, v: string)
    requires GoodKey(k) && |k| <= INI_BUFFERSIZE - 4
    ensures var lines := Inserted(k, Some(v));
      && lines != [] && HasKey(lines[0], k) && !Opens(lines[0])
      && (ValueOf(lines[0]) == v <==> GoodValue(v) && |k| + |v| <= INI_BUFFERSIZE - 2)
  {
    var u := FirstRead(k, v);
    WrittenEntry(k, v);
    FindAbsent(v, '\n');
    PartIsAll(u, v);
    hide Find, Trim, Unquote, HasKey, Opens, Content, ValueOf;
  }

  lemma {:induction false} SetAnyHere(lines: seq<string>, k: string, v: string)
    requires GoodKey(k) && |k| <= INI_BUFFERSIZE - 4
    ensures NewLines(k, Some(v)) != [] && Sep(NewLines(k, Some(v))[0]) < |NewLines(k, Some(v))[0]|
    ensures Inserted(k, Some(v)) != [] && Sep(Inserted(k, Some(v))[0]) < |Inserted(k, Some(v))[0]|
    ensures var t := LineHere(lines, k);
      LookupHere(EditHere(lines, k, Some(v)), k)
      == if t.Some? && !HasRawKey(t.value, k) then LookupHere(lines, k)
         else if t.None? && FromNextHeader(lines) != [] then Some(ValueOf(Inserted(k, Some(v))[0]))
         else Some(ValueOf(NewLines(k, Some(v))[0]))
  {
    NewValue(k, v);
    InsertedValue(k, v);
    hide Sep, KeyOf, ValueOf, NewLines, Inserted, Fold, HasRawKey;
    if lines == [] || Opens(lines[0]) {
    } else if HasRawKey(lines[0], k) {
      RawIsKey(lines[0], k);
    } else {
      SetAnyHere(lines[1..], k, v);
      assert ([lines[0]] + EditHere(lines[1..], k, Some(v)))[1..] == EditHere(lines[1..], k, Some(v));
    }
  }

  /** The section is there without the key, and another header follows. */
  predicate NewInFrontOfHeader(lines: seq<string>, s: string, k: string) {
    match Behind(lines, s)
    case None => false
    case Some(rest) => LineHere(rest, k).None? && FromNextHeader(rest) != []
  }

  /** The entry that an edit writes gives the value back. */
  predicate WrittenWell(lines: seq<string>, s: string, k: string, v: string) {
    GoodValue(v) &&
    if NewInFrontOfHeader(lines, s, k) then |k| + |v| <= INI_BUFFERSIZE - 2 else Editable(lines, s, k) && Fits(k, v)
  }

  lemma SetAny(lines: seq<string>, s: string, k: string, v: string)
    requires GoodKey(k) && |k| <= INI_BUFFERSIZE - 4 && (GoodSection(s) || Behind(lines, s).Some?)
    requires Lookup(lines, s, k) != Some(v)
    ensures Lookup(Edit(lines, s, k, Some(v)), s, k) == Some(v) <==> WrittenWell(lines, s, k, v)
  {
    EditBehind(lines, s, k, Some(v));
    NewValue(k, v);
    InsertedValue(k, v);
    match Behind(lines, s) {
      case None =>
        SetAnyHere([], k, v);
      case Some(rest) =>
        SetAnyHere(rest, k, v);
        LineFound(rest, k);
        if LineHere(rest, k).Some? {
          KeyIsRaw(LineHere(rest, k).value, k);
        }
    }
    hide EditHere, Edit, NewLines, Inserted, ValueOf, Sep, HasRawKey, HasKey, LookupHere, LineHere, FromNextHeader;
  }

  // ---- A header that is not read back --------------------------------------------------------------

  /** Lines as they can be read of a text that fits the buffer with room for one character more. */
  predicate Modest(lines: seq<string>) {
    forall i | 0 <= i < |lines| :: |lines[i]| <= INI_BUFFERSIZE - 3 && OneLine(lines[i])
  }

  lemma {:induction false} ModestText(t: string)
    requires Closed(t) && |t| <= INI_BUFFERSIZE - 2
    ensures Modest(Content(t))
    decreases |t|
  {
    if t != "" {
      var n := ReadLength(t);
      PiecesStep(t);
      PieceRead(t);
      ModestPiece(t, n);
      hide ReadLength, Pieces, NonBlank, OneLine;
      ModestText(t[n..]);
      assert Content(t) == NonBlank(t[..n]) + Content(t[n..]);
    }
  }

  lemma ModestPiece(t: string, n: nat)
    requires Closed(t) && 0 < n <= |t| <= INI_BUFFERSIZE - 2 && APiece(t[..n]) && (n < |t| ==> Ends(t[..n]))
    ensures Modest(NonBlank(t[..n]))
  {
    var p := t[..n];
    var l := p[..n - 1];
    assert p[n - 1] == '\n' && p == l + "\n";
    LineEndTrimmed(l);
    TrimWithin(l);
    hide Trim;
  }

  lemma TrimWithin(s: string)
    ensures |Trim(s)| <= |s| && forall c | c in Trim(s) :: c in s
  {
    SkipIsSuffix(s);
    StripIsPrefix(SkipLeading(s));
    hide SkipLeading, StripTrailing;
  }

  lemma NotItsHeader(t: string, s: string)
    requires !GoodSection(s) && |t| <= INI_BUFFERSIZE - 3 && OneLine(t)
    ensures !IsHeader(t, s)
  {
    if IsHeader(t, s) {
      var e := Find(t, ']');
      var n := t[1..e];
      FindFirst(t, ']');
      FoldChars(n, s);
      hide Find, Fold;
      forall i | 0 <= i < |s|
        ensures s[i] != ']' && s[i] != '\n'
      {
        assert Lower(n[i]) == Lower(s[i]) && n[i] == t[..e][i + 1] && n[i] in t;
      }
    }
  }

  lemma {:induction false} NotBehind(lines: seq<string>, s: string)
    requires s != "" && forall i | 0 <= i < |lines| :: !IsHeader(lines[i], s)
    ensures Behind(lines, s) == None
  {
    hide IsHeader;
    if lines != [] { NotBehind(lines[1..], s); }
  }

  /** A section whose name cannot be written is not found after an entry was added to it. */
  lemma {:induction false} SectionLost(lines: seq<string>, s: string, k: string, v: string)
    requires !GoodSection(s) && Behind(lines, s).None?
    ensures Behind(Edit(lines, s, k, Some(v)), s).None?
  {
    hide IsHeader, NewLines, HeaderLines;
    if lines == [] {
      NewSectionModest(s, k, v);
      var added := HeaderLines(s) + NewLines(k, Some(v));
      forall i | 0 <= i < |added|
        ensures !IsHeader(added[i], s)
      {
        NotItsHeader(added[i], s);
      }
      NotBehind(added, s);
    } else {
      SectionLost(lines[1..], s, k, v);
      assert ([lines[0]] + Edit(lines[1..], s, k, Some(v)))[1..] == Edit(lines[1..], s, k, Some(v));
    }
  }

  lemma NewSectionModest(s: string, k: string, v: string)
    ensures Modest(HeaderLines(s) + NewLines(k, Some(v)))
  {
    ModestText(Header(s) + "\n");
    ModestText(Assignment(k, v) + "\n");
    hide Content;
  }

  /**
   * Any section, any value, any file: what is put is found exactly if it was there before, or if the section is there
   * or has a name that can be written, and the value is a good one, an edit finds the entry, and the entry is written
   * whole.
   */
  lemma PutGetAny(f: File, s: string, k: string, v: string)
    requires GoodKey(k) && |k| <= INI_BUFFERSIZE - 4
    ensures var lines := if f.Some? then f.value else [];
      Gets(Puts(f, s, Some(k), Some(v)), s, k) == Some(v)
      <==> Gets(f, s, k) == Some(v) || ((GoodSection(s) || Behind(lines, s).Some?) && WrittenWell(lines, s, k, v))
  {
    var lines := if f.Some? then f.value else [];
    NothingThere(s, k);
    NewFileIs(s, k, v);
    hide *;
    PutsLines(f, s, k, v);
    if Lookup(lines, s, k) != Some(v) {
      if GoodSection(s) || Behind(lines, s).Some? {
        SetAny(lines, s, k, v);
      } else {
        SectionLost(lines, s, k, v);
        LookupNone(Edit(lines, s, k, Some(v)), s, k);
      }
    }
  }

  lemma LookupNone(lines: seq<string>, s: string, k: string)
    requires Behind(lines, s).None?
    ensures Lookup(lines, s, k) == None
  {
  }

  lemma NothingThere(s: string, k: string)
    ensures Lookup([], s, k) == None
  {
  }

  /** A new file is an empty one edited. */
  lemma NewFileIs(s: string, k: string, v: string)
    ensures Puts(None, s, Some(k), Some(v)) == Some(Edit([], s, k, Some(v)))
  {
    assert [] + NewLines(k, Some(v)) == NewLines(k, Some(v));
    hide NewLines;
  }

  lemma PutsLines(f: File, s: string, k: string, v: string)
    ensures Puts(None, s, Some(k), Some(v)) == Some(Edit([], s, k, Some(v))) ==>
              var lines := if f.Some? then f.value else [];
              Lookup([], s, k) == None ==>
              && Gets(f, s, k) == Lookup(lines, s, k)
              && Gets(Puts(f, s, Some(k), Some(v)), s, k)
                 == if Lookup(lines, s, k) == Some(v) then Some(v) else Lookup(Edit(lines, s, k, Some(v)), s, k)
  {
    hide Lookup, Edit, NewLines, HeaderLines;
  }

  // ---- Putting again -------------------------------------------------------------------------------

  lemma {:induction false} EditHereTwice(lines: seq<string>, k: string, v: string)
    requires GoodKey(k) && GoodValue(v) && Fits(k, v)
    ensures var once := EditHere(lines, k, Some(v)); EditHere(once, k, Some(v)) == once
  {
    AssignmentRead(k, v);
    AssignmentFits(k, v);
    var a := k + "=" + v;
    assert HasRawKey(a, k);
    hide Sep, KeyOf, ValueOf, Assignment, Content, Fold, Entry, HasRawKey;
    if lines == [] || Opens(lines[0]) || HasRawKey(lines[0], k) {
      var rest := if lines == [] then [] else if Opens(lines[0]) then lines else lines[1..];
      assert EditHere(lines, k, Some(v)) == [a] + rest;
      assert ([a] + rest)[1..] == rest;
    } else {
      EditHereTwice(lines[1..], k, v);
      assert ([lines[0]] + EditHere(lines[1..], k, Some(v)))[1..] == EditHere(lines[1..], k, Some(v));
    }
  }

  lemma {:induction false} EditTwice(lines: seq<string>, s: string, k: string, v: string)
    requires GoodSection(s) && GoodKey(k) && GoodValue(v) && Fits(k, v)
    ensures var once := Edit(lines, s, k, Some(v)); Edit(once, s, k, Some(v)) == once
  {
    if s == "" {
      EditHereTwice(lines, k, v);
    } else {
      HeaderRead(s);
      HeaderFits(s);
      assert IsHeader(Header(s), s);
      hide Name, Fold, EditHere, Header, IsHeader, HeaderLines, NewLines;
      if lines == [] {
        EditHereTwice([], k, v);
        EditNothing(k, v);
        assert ([Header(s)] + NewLines(k, Some(v)))[1..] == NewLines(k, Some(v));
      } else if IsHeader(lines[0], s) {
        EditHereTwice(lines[1..], k, v);
        assert ([lines[0]] + EditHere(lines[1..], k, Some(v)))[1..] == EditHere(lines[1..], k, Some(v));
      } else {
        EditTwice(lines[1..], s, k, v);
        assert ([lines[0]] + Edit(lines[1..], s, k, Some(v)))[1..] == Edit(lines[1..], s, k, Some(v));
      }
    }
  }

  lemma EditNothing(k: string, v: string)
    ensures EditHere([], k, Some(v)) == NewLines(k, Some(v))
  {
  }

  /** Putting the same value again leaves the lines of any file as they are. */
  lemma PutTwice(f: File, s: string, k: string, v: string)
    requires GoodSection(s) && GoodKey(k) && GoodValue(v) && Fits(k, v)
    ensures var once := Puts(f, s, Some(k), Some(v)); Puts(once, s, Some(k), Some(v)) == once
  {
    if f.None? {
      PutGetNew(s, k, v);
    } else {
      EditTwice(f.value, s, k, v);
    }
    hide Lookup, Edit, Header, NewLines;
  }

  /** The second time the file is not even rewritten, exactly if the first made the value one that is found. */
  lemma PutAgainIsNothing(f: File, s: string, k: string, v: string)
    requires GoodSection(s) && GoodKey(k) && GoodValue(v) && Fits(k, v)
    ensures Unchanged(Puts(f, s, Some(k), Some(v)), s, Some(k), Some(v))
            <==> (f.Some? ==> Editable(f.value, s, k) || Lookup(f.value, s, k) == Some(v))
  {
    if f.None? {
      PutGetNew(s, k, v);
    } else {
      PutGetExactly(f.value, s, k, v);
    }
    hide Lookup, Edit, Header, NewLines, Editable;
  }

  // ---- Everything else stays -----------------------------------------------------------------------

  lemma {:induction false} EditHereFrame(lines: seq<string>, k: string, v: Option<string>, k2: string)
    requires GoodEdit(k, v) && Fold(k) != Fold(k2)
    ensures LookupHere(EditHere(lines, k, v), k2) == LookupHere(lines, k2)
  {
    if v.Some? {
      AssignmentRead(k, v.value);
      AssignmentFits(k, v.value);
    }
    hide Sep, KeyOf, ValueOf, Assignment, Content, Fold, Entry, HasRawKey;
    if lines == [] {
    } else if Opens(lines[0]) {
      if v.Some? {
        assert ([k + "=" + v.value] + lines)[1..] == lines;
      }
    } else if HasRawKey(lines[0], k) {
      RawIsKey(lines[0], k);
      assert v.Some? ==> (NewLines(k, v) + lines[1..])[1..] == lines[1..];
      assert v.None? ==> NewLines(k, v) + lines[1..] == lines[1..];
    } else {
      EditHereFrame(lines[1..], k, v, k2);
      assert ([lines[0]] + EditHere(lines[1..], k, v))[1..] == EditHere(lines[1..], k, v);
    }
  }

  /** Behind another section's header an edit changes nothing. */
  lemma {:induction false} EditHereKeepsSections(lines: seq<string>, k: string, v: Option<string>, s2: string)
    requires GoodEdit(k, v) && s2 != ""
    ensures Behind(EditHere(lines, k, v), s2) == Behind(lines, s2)
  {
    if v.Some? {
      AssignmentRead(k, v.value);
      AssignmentFits(k, v.value);
    }
    hide Sep, KeyOf, ValueOf, Assignment, Content, Fold, Entry, HasRawKey;
    if lines == [] {
    } else if Opens(lines[0]) {
      if v.Some? {
        assert ([k + "=" + v.value] + lines)[1..] == lines;
      } else {
        assert [] + lines == lines;
      }
    } else if HasRawKey(lines[0], k) {
      RawIsKey(lines[0], k);
      assert v.Some? ==> (NewLines(k, v) + lines[1..])[1..] == lines[1..];
      assert v.None? ==> NewLines(k, v) + lines[1..] == lines[1..];
    } else {
      EditHereKeepsSections(lines[1..], k, v, s2);
      assert ([lines[0]] + EditHere(lines[1..], k, v))[1..] == EditHere(lines[1..], k, v);
    }
  }

  /** In front of the next header an edit of another section changes nothing. */
  lemma {:induction false} EditKeepsHere(lines: seq<string>, s: string, k: string, v: Option<string>, k2: string)
    requires GoodSection(s) && s != "" && GoodEdit(k, v)
    ensures LookupHere(Edit(lines, s, k, v), k2) == LookupHere(lines, k2)
  {
    HeaderRead(s);
    HeaderFits(s);
    hide Sep, KeyOf, ValueOf, Fold, Entry, EditHere, Header, HeaderLines, NewLines;
    if lines != [] && !IsHeader(lines[0], s) {
      EditKeepsHere(lines[1..], s, k, v, k2);
      assert ([lines[0]] + Edit(lines[1..], s, k, v))[1..] == Edit(lines[1..], s, k, v);
    }
  }

  lemma {:induction false} EditFrameSection(lines: seq<string>, s: string, k: string, v: Option<string>,
                                            s2: string, k2: string)
    requires GoodSection(s) && GoodEdit(k, v) && Fold(s) != Fold(s2)
    ensures Lookup(Edit(lines, s, k, v), s2, k2) == Lookup(lines, s2, k2)
  {
    if s == "" {
      EditHereKeepsSections(lines, k, v, s2);
    } else if s2 == "" {
      EditKeepsHere(lines, s, k, v, k2);
    } else {
      HeaderRead(s);
      HeaderFits(s);
      if v.Some? {
        AssignmentRead(k, v.value);
        AssignmentFits(k, v.value);
      }
      hide HeaderLines, NewLines, Inserted;
      hide Sep, KeyOf, ValueOf, Fold, Entry, EditHere, Header, Assignment, Content, LookupHere;
      if lines == [] {
        if v.Some? {
          var e := [Header(s)] + NewLines(k, v);
          assert e[1..] == [k + "=" + v.value] && e[1..][1..] == [];
          assert Behind(e[1..], s2) == Behind([], s2);
          assert Behind(e, s2) == Behind(e[1..], s2);
        }
      } else if IsHeader(lines[0], s) {
        EditHereKeepsSections(lines[1..], k, v, s2);
        assert ([lines[0]] + EditHere(lines[1..], k, v))[1..] == EditHere(lines[1..], k, v);
      } else {
        EditFrameSection(lines[1..], s, k, v, s2, k2);
        assert ([lines[0]] + Edit(lines[1..], s, k, v))[1..] == Edit(lines[1..], s, k, v);
        EditKeepsHere(lines[1..], s, k, v, k2);
      }
    }
  }

  lemma {:induction false} BehindFolded(lines: seq<string>, s: string, s2: string)
    requires Fold(s) == Fold(s2)
    ensures Behind(lines, s) == Behind(lines, s2)
  {
    FoldChars(s, s2);
    hide Name, Fold;
    if s != "" && lines != [] && !IsHeader(lines[0], s) {
      BehindFolded(lines[1..], s, s2);
    }
  }

  lemma {:induction false} HereFolded(lines: seq<string>, k: string, k2: string)
    requires Fold(k) == Fold(k2)
    ensures LookupHere(lines, k) == LookupHere(lines, k2)
  {
    hide Fold, KeyOf, ValueOf, Entry;
    if lines != [] && !Opens(lines[0]) && !HasKey(lines[0], k) {
      HereFolded(lines[1..], k, k2);
    }
  }

  lemma LookupFolded(lines: seq<string>, s: string, k: string, s2: string, k2: string)
    requires Fold(s) == Fold(s2) && Fold(k) == Fold(k2)
    ensures Lookup(lines, s, k) == Lookup(lines, s2, k2)
  {
    BehindFolded(lines, s, s2);
    if Behind(lines, s).Some? {
      HereFolded(Behind(lines, s).value, k, k2);
    }
  }

  /** Setting or deleting an entry leaves every other entry of the file as it was, whatever the file holds. */
  lemma EditFrame(lines: seq<string>, s: string, k: string, v: Option<string>, s2: string, k2: string)
    requires GoodSection(s) && GoodEdit(k, v) && (Fold(s) != Fold(s2) || Fold(k) != Fold(k2))
    ensures Lookup(Edit(lines, s, k, v), s2, k2) == Lookup(lines, s2, k2)
  {
    if Fold(s) != Fold(s2) {
      EditFrameSection(lines, s, k, v, s2, k2);
    } else {
      EditBehind(lines, s, k, v);
      BehindFolded(Edit(lines, s, k, v), s, s2);
      BehindFolded(lines, s, s2);
      match Behind(lines, s) {
        case Some(rest) => EditHereFrame(rest, k, v, k2);
        case None => EditHereFrame([], k, v, k2);
      }
    }
  }

  lemma {:induction false} NextHeaderKeeps(lines: seq<string>, s2: string, k2: string)
    ensures s2 != "" ==> Behind(FromNextHeader(lines), s2) == Behind(lines, s2)
    ensures LookupHere(FromNextHeader(lines), k2) == None
  {
    hide Fold, Find, HasKey, ValueOf;
    if lines != [] && !Opens(lines[0]) {
      NextHeaderKeeps(lines[1..], s2, k2);
    }
  }

  lemma {:induction false} EraseKeepsHere(lines: seq<string>, s: string, k2: string)
    requires s != ""
    ensures LookupHere(Erase(lines, s), k2) == LookupHere(lines, k2)
  {
    hide Fold, Find, HasKey, ValueOf;
    if lines == [] {
    } else if IsHeader(lines[0], s) {
      NextHeaderKeeps(lines[1..], s, k2);
    } else {
      EraseKeepsHere(lines[1..], s, k2);
      assert ([lines[0]] + Erase(lines[1..], s))[1..] == Erase(lines[1..], s);
    }
  }

  /** Erasing a section leaves every other section as it was. */
  lemma {:induction false} EraseFrame(lines: seq<string>, s: string, s2: string, k2: string)
    requires Fold(s) != Fold(s2)
    ensures Lookup(Erase(lines, s), s2, k2) == Lookup(lines, s2, k2)
  {
    hide Find, HasKey, ValueOf, LookupHere;
    if s == "" {
      NextHeaderKeeps(lines, s2, k2);
    } else if s2 == "" {
      EraseKeepsHere(lines, s, k2);
    } else if lines != [] {
      if IsHeader(lines[0], s) {
        NextHeaderKeeps(lines[1..], s2, k2);
      } else {
        EraseFrame(lines[1..], s, s2, k2);
        EraseKeepsHere(lines[1..], s, k2);
        assert ([lines[0]] + Erase(lines[1..], s))[1..] == Erase(lines[1..], s);
      }
    }
  }

  // ---- What is deleted -----------------------------------------------------------------------------

  /** The entries of the key in front of the next header. */
  function Matches(lines: seq<string>, k: string): seq<string> {
    if lines == [] || Opens(lines[0]) then []
    else (if HasKey(lines[0], k) then [lines[0]] else []) + Matches(lines[1..], k)
  }

  lemma {:induction false} FirstMatch(lines: seq<string>, k: string)
    ensures LookupHere(lines, k) == None <==> Matches(lines, k) == []
  {
    hide HasKey, ValueOf, Opens;
    if lines != [] && !Opens(lines[0]) && !HasKey(lines[0], k) { FirstMatch(lines[1..], k); }
  }

  /** A deletion takes the first entry it finds out of the entries of the key. */
  lemma {:induction false} DeleteMatches(lines: seq<string>, k: string)
    requires GoodKey(k)
    ensures Matches(EditHere(lines, k, None), k) == []
            <==> Matches(lines, k) == [] || (|Matches(lines, k)| == 1 && HasRawKey(Matches(lines, k)[0], k))
  {
    hide KeyOf, ValueOf, Fold, Entry, HasRawKey;
    if lines != [] && !Opens(lines[0]) {
      if HasRawKey(lines[0], k) {
        RawIsKey(lines[0], k);
        assert [] + lines[1..] == lines[1..];
      } else {
        DeleteMatches(lines[1..], k);
        var rest := EditHere(lines[1..], k, None);
        assert ([lines[0]] + rest)[1..] == rest;
        if HasKey(lines[0], k) {
          assert Matches([lines[0]] + rest, k) == [lines[0]] + Matches(rest, k);
        }
      }
    } else {
      assert [] + lines == lines;
    }
  }

  /** The key has no entry in the section, or just one and an edit finds it. */
  predicate Deletable(lines: seq<string>, s: string, k: string) {
    match Behind(lines, s)
    case None => true
    case Some(rest) => Matches(rest, k) == [] || (|Matches(rest, k)| == 1 && HasRawKey(Matches(rest, k)[0], k))
  }

  /** In any file a deleted entry is gone exactly if the key has no second entry, and an edit finds the one it has. */
  lemma DeletedExactly(lines: seq<string>, s: string, k: string)
    requires GoodKey(k)
    ensures Gets(Puts(Some(lines), s, Some(k), None), s, k) == None <==> Deletable(lines, s, k)
  {
    EditBehind(lines, s, k, None);
    match Behind(lines, s) {
      case None =>
      case Some(rest) =>
        DeleteMatches(rest, k);
        FirstMatch(EditHere(rest, k, None), k);
    }
    hide Edit, EditHere, Matches, HasRawKey, LookupHere;
  }

  lemma {:induction false} EraseBehind(lines: seq<string>, s: string)
    requires s != ""
    ensures Behind(Erase(lines, s), s) == match Behind(lines, s) case None => None case Some(rest) => Behind(rest, s)
  {
    hide Name, Fold;
    if lines != [] {
      if IsHeader(lines[0], s) {
        NextHeaderKeeps(lines[1..], s, "");
      } else {
        EraseBehind(lines[1..], s);
        assert ([lines[0]] + Erase(lines[1..], s))[1..] == Erase(lines[1..], s);
      }
    }
  }

  /** After a section was erased a lookup finds what a second section of that name holds, and else nothing. */
  lemma EraseGives(lines: seq<string>, s: string, k: string)
    ensures Gets(Puts(Some(lines), s, None, None), s, k)
            == if s != "" && Behind(lines, s).Some? then Lookup(Behind(lines, s).value, s, k) else None
  {
    if s == "" {
      NextHeaderKeeps(lines, "", k);
    } else {
      EraseBehind(lines, s);
    }
    hide LookupHere, Erase;
  }
}

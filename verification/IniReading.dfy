/**
 * How the text of an INI file is read, line by line and character by character: which names are the same, what a
 * line of each kind says, and where a long line is cut.
 */
module IniReading {
  import opened IniSpec
  import opened IniText
  import opened IniLines
  import opened IniList

  // ---- Names ---------------------------------------------------------------------------------------

  /** Equal, or a letter and the same letter as a capital. */
  predicate SameLetter(a: char, b: char) {
    || a == b
    || ('A' <= a <= 'Z' && b as int == a as int + 32)
    || ('A' <= b <= 'Z' && a as int == b as int + 32)
  }

  predicate SameName(a: string, b: string) {
    |a| == |b| && forall i | 0 <= i < |a| :: SameLetter(a[i], b[i])
  }

  lemma LowerIsSame(a: char, b: char)
    ensures Lower(a) == Lower(b) <==> SameLetter(a, b)
  {
  }

  /** Two names are the same to the code exactly if they differ in the case of letters only. */
  lemma FoldIsSame(a: string, b: string)
    ensures Fold(a) == Fold(b) <==> SameName(a, b)
  {
    forall x: char, y: char
      ensures Lower(x) == Lower(y) <==> SameLetter(x, y)
    {
      LowerIsSame(x, y);
    }
    hide Lower, SameLetter;
    if Fold(a) == Fold(b) {
      FoldChars(a, b);
    }
    if SameName(a, b) {
      assert forall i | 0 <= i < |a| :: Fold(a)[i] == Fold(b)[i];
    }
  }

  /** Every lookup by the same names is the same. */
  lemma NamesAlike(f: File, s: string, k: string, s2: string, k2: string)
    requires SameName(s, s2) && SameName(k, k2)
    ensures Gets(f, s, k) == Gets(f, s2, k2)
  {
    FoldIsSame(s, s2);
    FoldIsSame(k, k2);
    if f.Some? {
      LookupFolded(f.value, s, k, s2, k2);
    }
    hide Lookup;
  }

  // ---- Blanks --------------------------------------------------------------------------------------

  /** The characters up to the space. */
  predicate Spaces(b: string) {
    forall i | 0 <= i < |b| :: b[i] as int <= 32
  }

  /** No such character at either end. */
  predicate Solid(s: string) {
    s != "" ==> s[0] as int > 32 && s[|s| - 1] as int > 32
  }

  lemma SpacesAreBlank(b: string)
    ensures Spaces(b) <==> forall i | 0 <= i < |b| :: Blank(b[i])
    ensures Solid(b) <==> Trimmed(b)
  {
  }

  lemma {:induction false} SkipSpaces(b: string, s: string)
    requires Spaces(b) && (s != "" ==> !Blank(s[0]))
    ensures SkipLeading(b + s) == s
  {
    if b == "" {
      assert b + s == s;
    } else {
      assert (b + s)[1..] == b[1..] + s && Blank((b + s)[0]);
      SkipSpaces(b[1..], s);
    }
  }

  lemma {:induction false} StripSpaces(s: string, b: string)
    requires Spaces(b) && (s != "" ==> !Blank(s[|s| - 1]))
    ensures StripTrailing(s + b) == s
    decreases |b|
  {
    if b == "" {
      assert s + b == s;
    } else {
      var c := b[..|b| - 1];
      StripSpaces(s, c);
      assert (s + b)[..|s + b| - 1] == s + c;
    }
  }

  /** The blanks on both sides of a line do not matter. */
  lemma TrimSpaces(b: string, s: string, e: string)
    requires Spaces(b) && Spaces(e) && Solid(s)
    ensures Trim(b + s + e) == s
  {
    hide SkipLeading, StripTrailing;
    if s == "" {
      assert b + s + e == b + e + "";
      assert Spaces(b + e);
      SkipSpaces(b + e, "");
      StripSpaces("", "");
      assert "" + "" == "";
    } else {
      SkipSpaces(b, s + e);
      assert b + s + e == b + (s + e);
      StripSpaces(s, e);
    }
  }

  // ---- One line of a text --------------------------------------------------------------------------

  /** A line of at most 510 characters is read at once and without the blanks around it; a blank line is passed over. */
  lemma LineRead(b: string, s: string, e: string, rest: string)
    requires Spaces(b) && Spaces(e) && Solid(s) && '\n' !in b + s + e && |b + s + e| <= 510
    ensures Content(b + s + e + "\n" + rest) == (if s == "" then [] else [s]) + Content(rest)
  {
    hide *;
    var p := b + s + e + "\n";
    PieceOf(b + s + e);
    OnePiece(p);
    ClosedAligned(p);
    ContentJoined(p, rest);
    TrimSpaces(b, s, e);
    LineEndTrimmed(b + s + e);
    NonBlankOf(p, s);
  }

  lemma PieceOf(line: string)
    requires '\n' !in line && |line| <= 510
    ensures APiece(line + "\n") && IniText.Closed(line + "\n")
  {
    assert (line + "\n")[..|line|] == line;
  }

  lemma NonBlankOf(p: string, s: string)
    requires Trim(p) == s
    ensures NonBlank(p) == if s == "" then [] else [s]
  {
  }

  // ---- Entries -------------------------------------------------------------------------------------

  /** A value without the quotes around it. */
  function Inner(v: string): string {
    if v == "\"" then "" else if |v| >= 2 && v[0] == '"' && v[|v| - 1] == '"' then v[1..|v| - 1] else v
  }

  /** A key, blanks, a separator, blanks and a value; a colon separates only if there is no '=' at all. */
  predicate EntryParts(k: string, b: string, sep: char, c: string, v: string) {
    && Solid(k) && Spaces(b) && Spaces(c) && Solid(v) && (k == "" ==> b == "") && (v == "" ==> c == "")
    && (k != "" ==> k[0] != '[' && k[0] != ';' && k[0] != '#')
    && '=' !in k && (sep == '=' || (sep == ':' && ':' !in k && '=' !in v))
  }

  function EntryText(k: string, b: string, sep: char, c: string, v: string): string {
    k + b + [sep] + c + v
  }

  lemma NotInSpaces(b: string, c: char)
    requires Spaces(b) && c as int > 32
    ensures c !in b
  {
  }

  lemma EntrySep(k: string, b: string, sep: char, c: string, v: string)
    requires EntryParts(k, b, sep, c, v)
    ensures var t := EntryText(k, b, sep, c, v);
      Sep(t) == |k + b| < |t| && t[..Sep(t)] == k + b && t[Sep(t) + 1..] == c + v
  {
    NoSeparator(k, b, sep, c, v);
    hide *;
    EntrySlices(k, b, sep, c, v);
    SepAt(k + b, sep, c + v);
  }

  lemma EntrySlices(k: string, b: string, sep: char, c: string, v: string)
    ensures var t := EntryText(k, b, sep, c, v);
      t == k + b + ([sep] + (c + v)) && t[..|k + b|] == k + b && t[|k + b| + 1..] == c + v
  {
    var t := EntryText(k, b, sep, c, v);
    assert t == k + b + [sep] + (c + v);
  }

  lemma SepAt(h: string, sep: char, w: string)
    requires sep !in h && (sep == '=' || (sep == ':' && '=' !in h + ([sep] + w)))
    ensures Sep(h + ([sep] + w)) == |h|
  {
    hide Find;
    FindAt([sep] + w, sep);
    FindBehind(h, [sep] + w, sep);
    FindAbsent(h + ([sep] + w), '=');
  }

  lemma NoSeparator(k: string, b: string, sep: char, c: string, v: string)
    requires EntryParts(k, b, sep, c, v)
    ensures sep !in k + b && (sep == ':' || sep == '=')
    ensures sep == ':' ==> '=' !in EntryText(k, b, sep, c, v)
  {
    NotInSpaces(b, '=');
    NotInSpaces(b, ':');
    NotInSpaces(c, '=');
  }

  lemma FindAt(r: string, c: char)
    requires r != "" && r[0] == c
    ensures Find(r, c) == 0
  {
  }

  lemma EntryIs(k: string, b: string, sep: char, c: string, v: string)
    requires EntryParts(k, b, sep, c, v)
    ensures var t := EntryText(k, b, sep, c, v);
      Solid(t) && t != "" && Entry(t) && !Opens(t) && KeyOf(t) == k && ValueOf(t) == Inner(v)
  {
    var t := EntryText(k, b, sep, c, v);
    EntrySep(k, b, sep, c, v);
    assert t[0] == if k == "" then sep else k[0];
    assert t[|t| - 1] == if v == "" then sep else v[|v| - 1];
    StripSpaces(k, b);
    TrimSpaces(c, v, "");
    assert c + v + "" == c + v;
    hide Sep, StripTrailing, Trim, SkipLeading;
  }

  /**
   * An entry is found by the names that are the same as its key, with its value; any other name is sought behind it.
   */
  lemma EntryRead(i: string, k: string, b: string, sep: char, c: string, v: string, e: string, rest: string, k2: string)
    requires EntryParts(k, b, sep, c, v) && Spaces(i) && Spaces(e)
    requires var line := i + EntryText(k, b, sep, c, v) + e; '\n' !in line && |line| <= 510
    ensures var text := i + EntryText(k, b, sep, c, v) + e + "\n" + rest;
      && LookupHere(Content(text), k2) == (if SameName(k, k2) then Some(Inner(v)) else LookupHere(Content(rest), k2))
      && Keys(Content(text)) == [k] + Keys(Content(rest)) && Sections(Content(text)) == Sections(Content(rest))
      && forall s | s != "" :: Behind(Content(text), s) == Behind(Content(rest), s)
  {
    hide *;
    var t := EntryText(k, b, sep, c, v);
    EntryIs(k, b, sep, c, v);
    LineRead(i, t, e, rest);
    FoldIsSame(k, k2);
    EntryFirst(t, Content(rest), k2);
  }

  lemma EntryFirst(t: string, rest: seq<string>, k: string)
    requires Entry(t) && !Opens(t)
    ensures var lines := [t] + rest;
      && LookupHere(lines, k) == (if Fold(KeyOf(t)) == Fold(k) then Some(ValueOf(t)) else LookupHere(rest, k))
      && Keys(lines) == [KeyOf(t)] + Keys(rest) && Sections(lines) == Sections(rest)
      && forall s | s != "" :: Behind(lines, s) == Behind(rest, s)
  {
    hide Fold, KeyOf, ValueOf, Sep;
    var lines := [t] + rest;
    assert lines[0] == t && lines[1..] == rest;
    assert [] + Sections(rest) == Sections(rest);
  }

  lemma PlainEntry(k: string, sep: char, v: string, rest: string)
    requires EntryParts(k, "", sep, "", v) && '\n' !in k && '\n' !in v && |k| + |v| <= 509
    ensures LookupHere(Content(k + [sep] + v + "\n" + rest), k) == Some(Inner(v))
  {
    hide *;
    PlainText(k, sep, v, rest);
    SameIsSame(k);
    NoSpaces();
    EntryRead("", k, "", sep, "", v, "", rest, k);
  }

  lemma PlainText(k: string, sep: char, v: string, rest: string)
    requires EntryParts(k, "", sep, "", v) && '\n' !in k && '\n' !in v
    ensures var line := "" + EntryText(k, "", sep, "", v) + "";
      '\n' !in line && |line| == |k| + 1 + |v| && line + "\n" + rest == k + [sep] + v + "\n" + rest
  {
    assert "" + EntryText(k, "", sep, "", v) + "" == k + [sep] + v;
  }

  lemma SameIsSame(k: string)
    ensures SameName(k, k)
  {
  }

  lemma NoSpaces()
    ensures Spaces("")
  {
  }

  /** A value may stand in quotes, which are not part of it. */
  lemma QuotedRead(k: string, v: string, rest: string)
    requires GoodKey(k) && '\n' !in v && |k| + |v| <= 507
    ensures LookupHere(Content(k + "=\"" + v + "\"\n" + rest), k) == Some(v)
  {
    hide *;
    QuotedParts(k, v, rest);
    PlainEntry(k, '=', "\"" + v + "\"", rest);
  }

  lemma QuotedParts(k: string, v: string, rest: string)
    requires GoodKey(k) && '\n' !in v
    ensures var q := "\"" + v + "\"";
      && EntryParts(k, "", '=', "", q) && Inner(q) == v && '\n' !in k && '\n' !in q && |q| == |v| + 2
      && k + ['='] + q + "\n" + rest == k + "=\"" + v + "\"\n" + rest
  {
    SpacesAreBlank(k);
    var q := "\"" + v + "\"";
    assert q[0] == '"' && q[|q| - 1] == '"' && q[1..|q| - 1] == v;
  }

  /** The separator may be a colon, if there is no '='. */
  lemma ColonRead(k: string, v: string, rest: string)
    requires GoodKey(k) && ':' !in k && GoodValue(v) && '=' !in v && |k| + |v| <= 509
    ensures LookupHere(Content(k + ":" + v + "\n" + rest), k) == Some(v)
  {
    hide *;
    ColonParts(k, v);
    PlainEntry(k, ':', v, rest);
  }

  lemma ColonParts(k: string, v: string)
    requires GoodKey(k) && ':' !in k && GoodValue(v) && '=' !in v
    ensures EntryParts(k, "", ':', "", v) && Inner(v) == v && '\n' !in k && '\n' !in v
    ensures [':'] == ":"
  {
    SpacesAreBlank(k);
    SpacesAreBlank(v);
  }

  // ---- Other lines ---------------------------------------------------------------------------------

  /** A comment, or a line that is neither an entry nor begins with a bracket. */
  predicate Ignored(t: string) {
    t != "" && t[0] != '[' && (t[0] == ';' || t[0] == '#' || ('=' !in t && ':' !in t))
  }

  /** Such a line is never found and never listed, and neither is a blank one. */
  lemma IgnoredRead(i: string, t: string, e: string, rest: string, s: string, k: string)
    requires Spaces(i) && Spaces(e) && Solid(t) && (t == "" || Ignored(t))
    requires '\n' !in i + t + e && |i + t + e| <= 510
    ensures var text := i + t + e + "\n" + rest;
      && Lookup(Content(text), s, k) == Lookup(Content(rest), s, k)
      && Keys(Content(text)) == Keys(Content(rest)) && Sections(Content(text)) == Sections(Content(rest))
  {
    hide *;
    LineRead(i, t, e, rest);
    if t == "" {
      assert [] + Content(rest) == Content(rest);
    } else {
      IgnoredFirst(t, Content(rest), s, k);
    }
  }

  lemma IgnoredFirst(t: string, rest: seq<string>, s: string, k: string)
    requires Ignored(t)
    ensures var lines := [t] + rest;
      Lookup(lines, s, k) == Lookup(rest, s, k) && Keys(lines) == Keys(rest) && Sections(lines) == Sections(rest)
  {
    FindAbsent(t, '=');
    FindAbsent(t, ':');
    hide Fold, KeyOf, ValueOf, Find;
    var lines := [t] + rest;
    assert lines[0] == t && lines[1..] == rest;
    assert [] + Sections(rest) == Sections(rest) && [] + Keys(rest) == Keys(rest);
  }

  /** A header begins its section, for the names that are the same as its own, and ends the one before it. */
  lemma HeaderRead(i: string, s: string, t: string, e: string, rest: string, s2: string, k: string)
    requires Spaces(i) && Spaces(e) && ']' !in s && Solid("[" + s + "]" + t)
    requires var line := i + ("[" + s + "]" + t) + e; '\n' !in line && |line| <= 510
    ensures var text := i + ("[" + s + "]" + t) + e + "\n" + rest;
      && LookupHere(Content(text), k) == None && Keys(Content(text)) == []
      && Sections(Content(text)) == [s] + Sections(Content(rest))
      && (s2 != "" ==> Lookup(Content(text), s2, k)
                       == if SameName(s, s2) then LookupHere(Content(rest), k) else Lookup(Content(rest), s2, k))
  {
    hide *;
    var h := "[" + s + "]" + t;
    HeaderIs(s, t);
    LineRead(i, h, e, rest);
    FoldIsSame(s, s2);
    HeaderFirst(h, s, Content(rest), s2, k);
  }

  lemma HeaderIs(s: string, t: string)
    requires ']' !in s
    ensures var h := "[" + s + "]" + t; h != "" && Opens(h) && Name(h) == Some(s)
  {
    var h, r := "[" + s + "]" + t, "]" + t;
    assert h == ("[" + s) + r;
    FindBehind("[" + s, r, ']');
    FindAt(r, ']');
    hide Find;
    assert h[1..|s| + 1] == s;
  }

  lemma HeaderFirst(h: string, s: string, rest: seq<string>, s2: string, k: string)
    requires Opens(h) && Name(h) == Some(s)
    ensures var lines := [h] + rest;
      && LookupHere(lines, k) == None && Keys(lines) == [] && Sections(lines) == [s] + Sections(rest)
      && (s2 != "" ==> Lookup(lines, s2, k)
                       == if Fold(s) == Fold(s2) then LookupHere(rest, k) else Lookup(rest, s2, k))
  {
    hide Fold, Find, Name;
    var lines := [h] + rest;
    assert lines[0] == h && lines[1..] == rest;
  }

  /** A line with an opening bracket only ends the section before it and begins none. */
  lemma BracketRead(i: string, t: string, e: string, rest: string, s: string, k: string)
    requires Spaces(i) && Spaces(e) && Solid(t) && t != "" && t[0] == '[' && ']' !in t && s != ""
    requires '\n' !in i + t + e && |i + t + e| <= 510
    ensures var text := i + t + e + "\n" + rest;
      && LookupHere(Content(text), k) == None && Keys(Content(text)) == []
      && Sections(Content(text)) == Sections(Content(rest))
      && Lookup(Content(text), s, k) == Lookup(Content(rest), s, k)
  {
    hide *;
    LineRead(i, t, e, rest);
    BracketFirst(t, Content(rest), s, k);
  }

  lemma BracketFirst(t: string, rest: seq<string>, s: string, k: string)
    requires t != "" && t[0] == '[' && ']' !in t && s != ""
    ensures var lines := [t] + rest;
      && LookupHere(lines, k) == None && Keys(lines) == [] && Sections(lines) == Sections(rest)
      && Lookup(lines, s, k) == Lookup(rest, s, k)
  {
    FindAbsent(t, ']');
    hide Fold, Find;
    var lines := [t] + rest;
    assert lines[0] == t && lines[1..] == rest;
    assert [] + Sections(rest) == Sections(rest);
  }

  /** Without a section the lines in front of the first header are meant. */
  lemma NoSection(lines: seq<string>, k: string)
    ensures Lookup(lines, "", k) == LookupHere(lines, k)
  {
  }

  lemma NothingRead(s: string, k: string)
    ensures Content("") == [] && Lookup([], s, k) == None && LookupHere([], k) == None
  {
  }

  // ---- What an edit looks for ----------------------------------------------------------------------

  /** An edit takes a line for the key's if all in front of the separator is the key, even in a comment. */
  lemma EditSees(k: string, sep: char, w: string, key: string)
    requires sep !in k && (sep == '=' || (sep == ':' && '=' !in k + ([sep] + w)))
    ensures HasRawKey(k + ([sep] + w), key) <==> SameName(k, key)
  {
    hide Find, Sep, SameName, Fold;
    SepAt(k, sep, w);
    FoldIsSame(k, key);
    assert (k + ([sep] + w))[..|k|] == k;
  }

  lemma EditPasses(t: string, key: string)
    requires '=' !in t && ':' !in t
    ensures !HasRawKey(t, key)
  {
    FindAbsent(t, '=');
    FindAbsent(t, ':');
    hide Find, Fold;
  }

  // ---- Sizes ---------------------------------------------------------------------------------------

  /** A line of 511 characters or more is taken for lines of 511 and the rest. */
  lemma LongLineRead(line: string, rest: string)
    requires '\n' !in line && |line| == 511
    ensures Content(line + rest) == (if Trim(line) == "" then [] else [Trim(line)]) + Content(rest)
  {
    assert line[..510] + [line[510]] == line;
    assert APiece(line);
    OnePiece(line);
    assert Aligned(line);
    ContentJoined(line, rest);
    hide Content, Trim, Pieces;
  }

  /** What is written of a section's name and of an entry. */
  lemma WrittenSizes(s: string, k: string, v: string)
    ensures Header(s) == "[" + (if |s| <= 507 then s else s[..507]) + "]"
    ensures |k| + |v| <= 508 ==> Assignment(k, v) == k + "=" + v
    ensures |k| <= 508 < |k| + |v| ==> Assignment(k, v) == k + "=" + v[..508 - |k|]
    ensures |k| > 508 ==> Assignment(k, v) == k[..508] + "="
    ensures Inserted(k, Some(v)) == Content(k + "=" + v + "\n")
    ensures NewLines(k, Some(v)) == Content(Assignment(k, v) + "\n")
  {
    hide Content;
    assert |k| > 508 ==> v[..0] == "" && k[..508] + "=" + "" == k[..508] + "=";
  }

  // ---- An example ----------------------------------------------------------------------------------

  function Row(line: string, rest: string): string {
    line + "\r\n" + rest
  }

  lemma RowEntry(k: string, b: string, v: string, rest: string, s: string, k2: string)
    requires EntryParts(k, b, '=', b, v) && '\n' !in k + b + "=" + b + v && |k + b + "=" + b + v| <= 500
    ensures var lines, more := Content(Row(k + b + "=" + b + v, rest)), Content(rest);
      && LookupHere(lines, k2) == (if SameName(k, k2) then Some(Inner(v)) else LookupHere(more, k2))
      && (s != "" ==> Lookup(lines, s, k2) == Lookup(more, s, k2))
  {
    hide *;
    RowText(EntryText(k, b, '=', b, v), rest);
    RowEntryText(k, b, v);
    EntryRead("", k, b, '=', b, v, "\r", rest, k2);
    BehindIsLookup(Content(Row(k + b + "=" + b + v, rest)), Content(rest), s, k2);
  }

  lemma RowText(line: string, rest: string)
    ensures "" + line + "\r" + "\n" + rest == Row(line, rest) && Spaces("") && Spaces("\r")
    ensures '\n' !in line && |line| <= 500 ==> '\n' !in "" + line + "\r" && |"" + line + "\r"| <= 510
  {
    assert "" + line + "\r" + "\n" + rest == line + "\r\n" + rest;
  }

  lemma RowEntryText(k: string, b: string, v: string)
    ensures EntryText(k, b, '=', b, v) == k + b + "=" + b + v
  {
  }

  lemma BehindIsLookup(lines: seq<string>, more: seq<string>, s: string, k: string)
    ensures Behind(lines, s) == Behind(more, s) ==> Lookup(lines, s, k) == Lookup(more, s, k)
  {
  }

  lemma RowHeader(s: string, rest: string, s2: string, k: string)
    requires ']' !in s && '\n' !in s && |s| <= 400
    ensures var lines, more := Content(Row("[" + s + "]", rest)), Content(rest);
      && LookupHere(lines, k) == None
      && (s2 != "" ==> Lookup(lines, s2, k) == if SameName(s, s2) then LookupHere(more, k) else Lookup(more, s2, k))
  {
    var h := "[" + s + "]";
    assert h + "" == h && Solid(h) && '\n' !in h;
    hide *;
    RowText(h, rest);
    HeaderRead("", s, "", "\r", rest, s2, k);
  }

  lemma RowBlank(rest: string, s: string, k: string)
    ensures Lookup(Content(Row("", rest)), s, k) == Lookup(Content(rest), s, k)
  {
    hide *;
    RowText("", rest);
    NothingSolid();
    IgnoredRead("", "", "\r", rest, s, k);
  }

  lemma NothingSolid()
    ensures Solid("")
  {
  }

  /** The file of the library's own test. */
  const EXAMPLE_SECOND := Row("Val = 2", Row("String = mies", Row("#comment=3", "")))
  const EXAMPLE_FIRST := Row("String=noot", Row("Val=1", Row("", Row("[Second]", EXAMPLE_SECOND))))
  const EXAMPLE := Row("[First]", EXAMPLE_FIRST)

  /** What its first test looks up: names in small letters find "noot", "mies" and the numbers. */
  lemma ExampleRead()
    ensures Lookup(Content(EXAMPLE), "first", "string") == Some("noot")
    ensures Lookup(Content(EXAMPLE), "second", "string") == Some("mies")
    ensures Lookup(Content(EXAMPLE), "first", "dummy") == None
    ensures Lookup(Content(EXAMPLE), "first", "val") == Some("1")
    ensures Lookup(Content(EXAMPLE), "second", "val") == Some("2")
  {
    InFirst("string");
    InFirst("dummy");
    InFirst("val");
    InSecond("string");
    InSecond("val");
    SameNames();
    hide *;
  }

  lemma SameNames()
    ensures SameName("First", "first") && SameName("Second", "second") && !SameName("First", "second")
    ensures SameName("String", "string") && SameName("Val", "val")
    ensures !SameName("String", "val") && !SameName("Val", "string")
    ensures !SameName("String", "dummy") && !SameName("Val", "dummy")
  {
  }

  lemma InFirst(k: string)
    ensures Lookup(Content(EXAMPLE), "first", k)
            == if SameName("String", k) then Some("noot") else if SameName("Val", k) then Some("1") else None
  {
    SameNames();
    Rows();
    hide *;
    RowHeader("First", EXAMPLE_FIRST, "first", k);
    RowEntry("String", "", "noot", Row("Val=1", Row("", Row("[Second]", EXAMPLE_SECOND))), "", k);
    RowEntry("Val", "", "1", Row("", Row("[Second]", EXAMPLE_SECOND)), "", k);
    RowBlank(Row("[Second]", EXAMPLE_SECOND), "", k);
    NoSection(Content(Row("", Row("[Second]", EXAMPLE_SECOND))), k);
    NoSection(Content(Row("[Second]", EXAMPLE_SECOND)), k);
    RowHeader("Second", EXAMPLE_SECOND, "", k);
  }

  lemma InSecond(k: string)
    requires k == "string" || k == "val"
    ensures Lookup(Content(EXAMPLE), "second", k) == Some(if k == "val" then "2" else "mies")
  {
    SameNames();
    Rows();
    hide *;
    RowHeader("First", EXAMPLE_FIRST, "second", k);
    RowEntry("String", "", "noot", Row("Val=1", Row("", Row("[Second]", EXAMPLE_SECOND))), "second", k);
    RowEntry("Val", "", "1", Row("", Row("[Second]", EXAMPLE_SECOND)), "second", k);
    RowBlank(Row("[Second]", EXAMPLE_SECOND), "second", k);
    RowHeader("Second", EXAMPLE_SECOND, "second", k);
    RowEntry("Val", " ", "2", Row("String = mies", Row("#comment=3", "")), "", k);
    RowEntry("String", " ", "mies", Row("#comment=3", ""), "", k);
  }

  lemma Rows()
    ensures EXAMPLE == Row("[" + "First" + "]", EXAMPLE_FIRST)
    ensures EXAMPLE_FIRST == Row("String" + "" + "=" + "" + "noot",
                                 Row("Val" + "" + "=" + "" + "1", Row("", Row("[" + "Second" + "]", EXAMPLE_SECOND))))
    ensures EXAMPLE_SECOND == Row("Val" + " " + "=" + " " + "2",
                                  Row("String" + " " + "=" + " " + "mies", Row("#comment=3", "")))
    ensures "Val" + "" + "=" + "" + "1" == "Val=1" && "[" + "Second" + "]" == "[Second]"
    ensures "String" + " " + "=" + " " + "mies" == "String = mies"
    ensures EntryParts("String", "", '=', "", "noot") && EntryParts("Val", "", '=', "", "1")
    ensures EntryParts("Val", " ", '=', " ", "2") && EntryParts("String", " ", '=', " ", "mies")
    ensures Inner("noot") == "noot" && Inner("1") == "1" && Inner("2") == "2" && Inner("mies") == "mies"
  {
    hide Row;
    assert "[" + "First" + "]" == "[First]" && "[" + "Second" + "]" == "[Second]";
    assert "String" + "" + "=" + "" + "noot" == "String=noot" && "Val" + "" + "=" + "" + "1" == "Val=1";
    assert "Val" + " " + "=" + " " + "2" == "Val = 2" && "String" + " " + "=" + " " + "mies" == "String = mies";
  }
}

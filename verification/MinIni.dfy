/**
 * Reading and rewriting an INI file, one line at a time.
 */
module MinIni {
  import opened IniSpec
  import opened IniText
  import opened IniList

  // ---- Files ---------------------------------------------------------------------------------------

  /** The named file on the disk. */
  class IniFile {
    var present: bool
    var text: string

    constructor ()
      ensures !present && text == ""
    {
      present, text := false, "";
    }

    ghost function Abs(): File
      reads this
    {
      if present then Some(Content(text)) else None
    }

    /** Copied piece by piece the file is read as before. */
    ghost predicate Valid()
      reads this
    {
      Steady(text)
    }
  }

  /** A file opened for reading: what has not been read yet. */
  class Reader {
    var left: string

    constructor (text: string)
      ensures left == text
    {
      left := text;
    }

    /** Reads up to a line end, the end of the file or the end of the buffer. */
    method Read() returns (ok: bool, line: string)
      modifies this
      ensures ok <==> old(left) != ""
      ensures !ok ==> left == old(left)
      ensures ok ==> line + left == old(left) && |line| == ReadLength(old(left)) > 0
      ensures ok ==> APiece(line) && Content(old(left)) == NonBlank(line) + Content(left)
      ensures Steady(old(left)) ==> Steady(left)
      ensures ok && Steady(old(left)) && left != "" ==> Keeps(line) && Ends(line)
    {
      if left == "" {
        return false, "";
      }
      var n := LineLength(left);
      if n > INI_BUFFERSIZE - 1 {
        n := INI_BUFFERSIZE - 1;
      }
      assert n == ReadLength(left);
      hide *;
      OneRead(left, n);
      ok, line, left := true, left[..n], left[n..];
    }
  }

  lemma OneRead(text: string, n: nat)
    requires text != "" && n == ReadLength(text)
    ensures 0 < n <= |text| && text[..n] + text[n..] == text
    ensures APiece(text[..n]) && Content(text) == NonBlank(text[..n]) + Content(text[n..])
    ensures Steady(text) ==> Steady(text[n..]) && (text[n..] != "" ==> Keeps(text[..n]) && Ends(text[..n]))
  {
    hide *;
    PiecesStep(text);
    PieceRead(text);
    ContentStep(text, n);
    if Steady(text) { SteadyStep(text, n); }
  }

  lemma ContentStep(text: string, n: nat)
    requires 0 < n <= |text| && Pieces(text) == [text[..n]] + Pieces(text[n..])
    ensures text[..n] + text[n..] == text
    ensures Content(text) == NonBlank(text[..n]) + Content(text[n..])
  {
    assert ([text[..n]] + Pieces(text[n..]))[1..] == Pieces(text[n..]);
    hide NonBlank, Pieces;
  }

  lemma SteadyStep(text: string, n: nat)
    requires 0 < n <= |text| && Pieces(text) == [text[..n]] + Pieces(text[n..]) && Steady(text)
    ensures Steady(text[n..]) && (text[n..] != "" ==> Keeps(text[..n]))
  {
    hide *;
    SomePieces(text[n..]);
    SteadyIs(text);
    SteadyIs(text[n..]);
    AllButLast(text[..n], Pieces(text[n..]));
  }

  lemma SteadyIs(text: string)
    ensures Steady(text) <==> forall i | 0 <= i < |Pieces(text)| - 1 :: Keeps(Pieces(text)[i])
  {
    hide ReadLength, Keeps;
  }

  lemma AllButLast(first: string, rest: seq<string>)
    requires var ps := [first] + rest; forall i | 0 <= i < |ps| - 1 :: Keeps(ps[i])
    ensures forall i | 0 <= i < |rest| - 1 :: Keeps(rest[i])
    ensures rest != [] ==> Keeps(first)
  {
    hide Keeps;
    var ps := [first] + rest;
    assert ps[0] == first;
    assert forall i | 0 <= i < |rest| :: rest[i] == ps[i + 1];
  }

  lemma SomePieces(text: string)
    ensures text != "" ==> Pieces(text) != []
  {
  }

  /** A file opened for writing: what has been written. */
  class Writer {
    var text: string

    constructor ()
      ensures text == ""
    {
      text := "";
    }

    method Write(s: string)
      modifies this
      ensures text == old(text) + s
    {
      text := text + s;
    }
  }

  // ---- Strings -------------------------------------------------------------------------------------

  method SkipBlanks(str: string) returns (sp: string)
    ensures sp == SkipLeading(str)
  {
    var i := 0;
    while i < |str| && Blank(str[i])
      invariant i <= |str| && SkipLeading(str[i..]) == SkipLeading(str)
    {
      assert str[i..][1..] == str[i + 1..];
      i := i + 1;
    }
    sp := str[i..];
  }

  method StripBlanks(str: string) returns (s: string)
    ensures s == StripTrailing(str)
  {
    var i := |str|;
    assert str[..i] == str;
    while i > 0 && Blank(str[i - 1])
      invariant i <= |str| && StripTrailing(str[..i]) == StripTrailing(str)
    {
      assert str[..i][..i - 1] == str[..i - 1];
      i := i - 1;
    }
    s := str[..i];
  }

  method Position(s: string, c: char) returns (i: nat)
    ensures i == Find(s, c)
  {
    i := 0;
    while i < |s| && s[i] != c
      invariant i <= |s| && Find(s, c) == i + Find(s[i..], c)
    {
      assert s[i..][1..] == s[i + 1..];
      i := i + 1;
    }
  }

  /** The separator: the first '=', or else the first ':'. */
  method Separator(sp: string) returns (ep: nat)
    ensures ep == Sep(sp)
  {
    ep := Position(sp, '=');
    if ep == |sp| {
      ep := Position(sp, ':');
    }
  }

  // ---- Reading -------------------------------------------------------------------------------------

  /** A line read, with the blanks in front skipped: what it adds to the content, and how it is understood. */
  lemma LineUnderstood(line: string, sp: string)
    requires sp == SkipLeading(line)
    ensures sp == "" ==> NonBlank(line) == []
    ensures sp != "" ==>
              var t := Trim(line);
              && NonBlank(line) == [t] && !Blank(sp[0]) && t == StripTrailing(sp)
              && Opens(t) == Opens(sp) && Comment(t) == Comment(sp) && Name(t) == Name(sp)
              && (Sep(t) < |t| <==> Sep(sp) < |sp|)
              && (Sep(sp) < |sp| ==> Sep(t) == Sep(sp) && t[..Sep(t)] == sp[..Sep(sp)] && ValueOf(t) == ValueOf(sp))
  {
    SkippedEmpty(line);
    TrimSkipped(line);
    if sp != "" {
      StrippedHead(sp);
      Stripped(sp);
      assert Trim(line) == StripTrailing(sp);
    }
    hide SkipLeading, StripTrailing, Sep, Name, ValueOf, Opens, Comment;
  }

  lemma FirstAndRest(t: string, rest: seq<string>)
    ensures ([t] + rest)[0] == t && ([t] + rest)[1..] == rest
  {
  }

  /** One round of the search for a section. */
  lemma SectionRound(line: string, sp: string, ep: nat, rest: seq<string>, section: string, idx: int, want: int)
    requires sp == SkipLeading(line) && ep == Find(sp, ']')
    ensures SeekSection(NonBlank(line) + rest, section, idx, want)
            == if sp == "" || sp[0] != '[' || ep == |sp| then SeekSection(rest, section, idx, want)
               else if Fold(sp[1..ep]) == Fold(section) then Some(Found(sp[1..ep], idx, rest))
               else if idx + 1 == want then Some(Found(sp[1..ep], idx + 1, rest))
               else SeekSection(rest, section, idx + 1, want)
  {
    LineUnderstood(line, sp);
    if sp == "" {
      assert [] + rest == rest;
    } else {
      FirstAndRest(Trim(line), rest);
      NameIs(sp, ep);
    }
    hide SkipLeading, Find, StripTrailing, Name, Sep, ValueOf, Trim, NonBlank, Fold, Opens, Comment;
  }

  /** Moves behind the header with the name or the number. */
  method FindSection(r: Reader, section: string, idxSection: int) returns (ok: bool, name: string, idx: int)
    modifies r
    ensures match SeekSection(Content(old(r.left)), section, -1, idxSection)
            case None => !ok
            case Some(f) => ok && name == f.text && idx == f.idx && Content(r.left) == f.rest
  {
    ghost var goal := SeekSection(Content(r.left), section, -1, idxSection);
    idx, name := -1, "";
    hide *;
    while true
      invariant SeekSection(Content(r.left), section, idx, idxSection) == goal
      decreases |r.left|
    {
      NothingSought(section, idx, idxSection);
      var line;
      ok, line := r.Read();
      if !ok {
        return;
      }
      var sp := SkipBlanks(line);
      var ep := Position(sp, ']');
      SectionRound(line, sp, ep, Content(r.left), section, idx, idxSection);
      if sp != "" && sp[0] == '[' && ep < |sp| {
        if Fold(sp[1..ep]) == Fold(section) {
          name := sp[1..ep];
          return;
        }
        idx := idx + 1;
        if idx == idxSection {
          name := sp[1..ep];
          return;
        }
      }
    }
  }

  lemma NothingSought(section: string, idx: int, want: int)
    ensures SeekSection(Content(""), section, idx, want) == None
    ensures SeekKey(Content(""), section, idx, want) == None
  {
  }

  lemma NameIs(sp: string, ep: nat)
    requires sp != "" && ep == Find(sp, ']')
    ensures Name(sp) == if sp[0] == '[' && ep < |sp| then Some(sp[1..ep]) else None
  {
  }

  /** One round of the search for a key. */
  lemma KeyRound(line: string, sp: string, ep: nat, rest: seq<string>, key: string, idx: int, want: int)
    requires sp == SkipLeading(line) && ep == Sep(sp)
    ensures sp != "" ==> Trim(line) == StripTrailing(sp)
    ensures SeekKey(NonBlank(line) + rest, key, idx, want)
            == if sp == "" then SeekKey(rest, key, idx, want)
               else if Opens(sp) then None
               else if Comment(sp) || ep == |sp| then SeekKey(rest, key, idx, want)
               else if Fold(StripTrailing(sp[..ep])) == Fold(key) then Some(Found(Trim(line), idx, rest))
               else if idx + 1 == want then Some(Found(Trim(line), idx + 1, rest))
               else SeekKey(rest, key, idx + 1, want)
  {
    LineUnderstood(line, sp);
    if sp == "" {
      assert [] + rest == rest;
    } else {
      FirstAndRest(Trim(line), rest);
    }
    hide SkipLeading, Find, StripTrailing, Name, Sep, ValueOf, Trim, NonBlank, Fold, Opens, Comment;
  }

  /** Finds the entry with the key or the number in front of the next header. */
  method FindKey(r: Reader, key: string, idxKey: int) returns (ok: bool, sp: string, ep: nat, idx: int)
    modifies r
    ensures match SeekKey(Content(old(r.left)), key, -1, idxKey)
            case None => !ok
            case Some(f) => ok && idx == f.idx && ep == Sep(sp) < |sp| && f.text == StripTrailing(sp)
  {
    ghost var goal := SeekKey(Content(r.left), key, -1, idxKey);
    idx, sp, ep := -1, "", 0;
    hide *;
    while true
      invariant SeekKey(Content(r.left), key, idx, idxKey) == goal
      decreases |r.left|
    {
      NothingSought(key, idx, idxKey);
      var line;
      ok, line := r.Read();
      if !ok {
        return;
      }
      sp := SkipBlanks(line);
      ep := Separator(sp);
      KeyRound(line, sp, ep, Content(r.left), key, idx, idxKey);
      if sp != "" {
        if Opens(sp) {
          ok := false;
          return;
        }
        if !Comment(sp) && ep < |sp| {
          var k := StripBlanks(sp[..ep]);
          if Fold(k) == Fold(key) {
            return;
          }
          idx := idx + 1;
          if idx == idxKey {
            return;
          }
        }
      }
    }
  }

  lemma FoundLine(sp: string)
    requires Sep(sp) < |sp|
    ensures var t := StripTrailing(sp);
      && Sep(t) < |t| && KeyOf(t) == StripTrailing(sp[..Sep(sp)]) && ValueOf(t) == Unquote(Trim(sp[Sep(sp) + 1..]))
  {
    Stripped(sp);
    hide Sep, StripTrailing, SkipLeading, Trim, Unquote;
  }

  /** The value behind a separator, without the blanks and the double quotes around it. */
  method Value(sp: string, ep: nat) returns (v: string)
    requires ep < |sp|
    ensures v == Unquote(Trim(sp[ep + 1..]))
  {
    v := SkipBlanks(sp[ep + 1..]);
    v := StripBlanks(v);
    hide SkipLeading, StripTrailing;
    if v != "" && v[0] == '"' && v[|v| - 1] == '"' {
      v := if |v| == 1 then "" else v[1..|v| - 1];
    }
  }

  lemma SearchIs(lines: seq<string>, section: string, key: Option<string>, idxSection: int, idxKey: int)
    ensures section == "" && idxSection < 0 ==>
              Search(lines, section, key, idxSection, idxKey) == InSection(lines, key, idxKey)
    ensures section != "" || idxSection >= 0 ==>
              Search(lines, section, key, idxSection, idxKey)
              == match SeekSection(lines, section, -1, idxSection)
                 case None => None
                 case Some(f) =>
                   if idxSection < 0 then InSection(f.rest, key, idxKey)
                    else if f.idx == idxSection then Some(f.text) else None
    ensures InSection(lines, key, idxKey)
            == match SeekKey(lines, OrEmpty(key), -1, idxKey)
               case None => None
               case Some(f) => if idxKey < 0 then Some(ValueOf(f.text))
                                else if f.idx == idxKey then Some(KeyOf(f.text)) else None
  {
    hide SeekSection, SeekKey, ValueOf, KeyOf;
  }

  /** The result in a buffer of the given size. */
  ghost predicate Delivered(ok: bool, buffer: string, result: Option<string>, size: nat) {
    size > 0 && (ok <==> result.Some?) && (ok ==> buffer == Clip(result.value, size - 1))
  }

  /** Searches the section the reader is in. */
  method GetInSection(r: Reader, key: Option<string>, idxKey: int, size: nat) returns (ok: bool, buffer: string)
    requires size > 0
    modifies r
    ensures Delivered(ok, buffer, InSection(Content(old(r.left)), key, idxKey), size)
  {
    hide SeekKey, Content, KeyOf, ValueOf, Unquote, Trim, StripTrailing, Sep, Clip;
    buffer := "";
    var sp, ep, idx;
    ok, sp, ep, idx := FindKey(r, OrEmpty(key), idxKey);
    if !ok {
      return;
    }
    FoundLine(sp);
    if idxKey >= 0 {
      if idx == idxKey {
        buffer := StripBlanks(sp[..ep]);
        buffer := Clip(buffer, size - 1);
        return;
      }
      ok := false;
      return;
    }
    buffer := Value(sp, ep);
    buffer := Clip(buffer, size - 1);
  }

  /** Reads a value, the name of a key or the name of a section from a file. */
  method GetKeyString(r: Reader, section: string, key: Option<string>, idxSection: int, idxKey: int, size: nat)
      returns (ok: bool, buffer: string)
    requires size > 0
    modifies r
    ensures Delivered(ok, buffer, Search(Content(old(r.left)), section, key, idxSection, idxKey), size)
  {
    SearchIs(Content(r.left), section, key, idxSection, idxKey);
    hide InSection, SeekSection, SeekKey, Content, Clip, Search;
    buffer := "";
    if section != "" || idxSection >= 0 {
      var name, idx;
      ok, name, idx := FindSection(r, section, idxSection);
      if !ok {
        return;
      }
      if idxSection >= 0 {
        if idx == idxSection {
          buffer := Clip(name, size - 1);
          return;
        }
        ok := false;
        return;
      }
    }
    ok, buffer := GetInSection(r, key, idxKey, size);
  }

  lemma ClipIs(s: string, n: nat)
    ensures Clip(s, n) == if |s| <= n then s else s[..n]
  {
  }

  /** A value, or the default. */
  method Gets(file: IniFile, section: string, key: string, defValue: string, size: nat) returns (buffer: string)
    requires size > 0
    ensures buffer == match IniSpec.Gets(file.Abs(), section, key)
                      case None => Clip(defValue, size - 1)
                      case Some(v) => Clip(v, size - 1)
    ensures !file.present ==> buffer == if |defValue| < size then defValue else defValue[..size - 1]
  {
    hide Search, Lookup, Content, Clip;
    ClipIs(defValue, size - 1);
    var ok := false;
    if file.present {
      var r := new Reader(file.text);
      GetsIsLookup(Content(file.text), section, key);
      ok, buffer := GetKeyString(r, section, Some(key), -1, -1, size);
    }
    if !ok {
      buffer := Clip(defValue, size - 1);
    }
  }

  /** The name of a section by its number, or nothing. */
  method GetSection(file: IniFile, idx: nat, size: nat) returns (buffer: string)
    requires size > 0
    ensures var listed := if file.Abs().Some? then Nth(UpToEmpty(Sections(file.Abs().value)), idx) else None;
      buffer == if listed.Some? then Clip(listed.value, size - 1) else ""
  {
    hide Search, Content, Clip, UpToEmpty, Sections, Nth;
    var ok := false;
    if file.present {
      var r := new Reader(file.text);
      SectionsListed(Content(file.text), idx);
      ok, buffer := GetKeyString(r, "", None, idx, -1, size);
    }
    if !ok {
      buffer := "";
    }
  }

  /** The name of a key by its number in a section, or nothing. */
  method GetKey(file: IniFile, section: string, idx: nat, size: nat) returns (buffer: string)
    requires size > 0
    ensures var rest := if file.Abs().Some? then Behind(file.Abs().value, section) else None;
      var listed := if rest.Some? then Nth(UpToEmpty(Keys(rest.value)), idx) else None;
      buffer == if listed.Some? then Clip(listed.value, size - 1) else ""
  {
    hide Search, Content, Clip, UpToEmpty, Keys, Nth, Behind;
    var ok := false;
    if file.present {
      var r := new Reader(file.text);
      KeysListed(Content(file.text), section, idx);
      ok, buffer := GetKeyString(r, section, None, -1, idx, size);
    }
    if !ok {
      buffer := "";
    }
  }
}

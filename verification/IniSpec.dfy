/**
 * INI files as their non-blank lines with the blanks around them removed: what a lookup finds, and how a file is
 * edited. Everything the code decides about a line depends on the trimmed line only. A line longer than the buffer
 * is read in pieces, each of which is a line to the code.
 */
module IniSpec {
  datatype Option<T> = None | Some(value: T)

  // ---- Characters and strings ----------------------------------------------------------------------

  predicate Blank(c: char) {
    c <= ' '
  }

  function SkipLeading(s: string): string {
    if s != "" && Blank(s[0]) then SkipLeading(s[1..]) else s
  }

  function StripTrailing(s: string): string {
    if s != "" && Blank(s[|s| - 1]) then StripTrailing(s[..|s| - 1]) else s
  }

  function Trim(s: string): string {
    StripTrailing(SkipLeading(s))
  }

  function Lower(c: char): char {
    if 'A' <= c <= 'Z' then c - 'A' + 'a' else c
  }

  /** Names are compared without regard to case. */
  function Fold(s: string): string {
    seq(|s|, i requires 0 <= i < |s| => Lower(s[i]))
  }

  /** The place of the first c, or the length of the string. */
  function Find(s: string, c: char): (i: nat)
    ensures i <= |s|
    ensures i < |s| ==> s[i] == c
  {
    if s == "" || s[0] == c then 0 else 1 + Find(s[1..], c)
  }

  // ---- Lines ---------------------------------------------------------------------------------------

  /** The first '=', or the first ':' if there is none. */
  function Sep(t: string): (i: nat)
    ensures i <= |t|
  {
    if Find(t, '=') < |t| then Find(t, '=') else Find(t, ':')
  }

  /** A line that ends the section before it. */
  predicate Opens(t: string) {
    t != "" && t[0] == '['
  }

  /** The name of a section header; a line without a closing bracket is no header. */
  function Name(t: string): Option<string> {
    var e := Find(t, ']');
    if Opens(t) && 0 < e < |t| then Some(t[1..e]) else None
  }

  predicate Comment(t: string) {
    t != "" && (t[0] == ';' || t[0] == '#')
  }

  predicate Entry(t: string) {
    !Comment(t) && Sep(t) < |t|
  }

  function KeyOf(t: string): string {
    StripTrailing(t[..Sep(t)])
  }

  function Unquote(v: string): string {
    if v != "" && v[0] == '"' && v[|v| - 1] == '"' then (if |v| == 1 then "" else v[1..|v| - 1]) else v
  }

  function ValueOf(t: string): string
    requires Sep(t) < |t|
  {
    Unquote(Trim(t[Sep(t) + 1..]))
  }

  predicate IsHeader(t: string, section: string) {
    Name(t).Some? && Fold(Name(t).value) == Fold(section)
  }

  /** How a lookup compares keys: without the blanks before the separator. */
  predicate HasKey(t: string, key: string) {
    Entry(t) && Fold(KeyOf(t)) == Fold(key)
  }

  /** How an edit compares keys: everything before the separator. */
  predicate HasRawKey(t: string, key: string) {
    Sep(t) < |t| && Fold(t[..Sep(t)]) == Fold(key)
  }

  // ---- Texts ---------------------------------------------------------------------------------------

  const INI_BUFFERSIZE := 512

  /** The length of the first line, with its line end if it has one. */
  function LineLength(text: string): (n: nat)
    requires text != ""
    ensures 0 < n <= |text|
  {
    if Find(text, '\n') < |text| then Find(text, '\n') + 1 else |text|
  }

  /** How much is read at once: up to a line end, or as much as the buffer holds. */
  function ReadLength(text: string): (n: nat)
    requires text != ""
    ensures 0 < n <= |text|
  {
    if LineLength(text) < INI_BUFFERSIZE then LineLength(text) else INI_BUFFERSIZE - 1
  }

  /** A text as it is read. */
  function Pieces(text: string): seq<string>
    decreases |text|
  {
    if text == "" then [] else [text[..ReadLength(text)]] + Pieces(text[ReadLength(text)..])
  }

  /** The line, unless it is blank. */
  function NonBlank(line: string): seq<string> {
    if Trim(line) == "" then [] else [Trim(line)]
  }

  function NonBlanks(pieces: seq<string>): seq<string> {
    if pieces == [] then [] else NonBlank(pieces[0]) + NonBlanks(pieces[1..])
  }

  /** The lines of a text. */
  function Content(text: string): seq<string> {
    NonBlanks(Pieces(text))
  }

  // ---- Looking up ----------------------------------------------------------------------------------

  /** The lines behind the first header of the section; without a name, all lines. */
  function Behind(lines: seq<string>, section: string): Option<seq<string>> {
    if section == "" then Some(lines)
    else if lines == [] then None
    else if IsHeader(lines[0], section) then Some(lines[1..])
    else Behind(lines[1..], section)
  }

  function LookupHere(lines: seq<string>, key: string): Option<string> {
    if lines == [] || Opens(lines[0]) then None
    else if HasKey(lines[0], key) then Some(ValueOf(lines[0]))
    else LookupHere(lines[1..], key)
  }

  function Lookup(lines: seq<string>, section: string, key: string): Option<string> {
    match Behind(lines, section)
    case None => None
    case Some(rest) => LookupHere(rest, key)
  }

  // ---- Editing -------------------------------------------------------------------------------------

  function Clip(s: string, n: nat): string {
    if |s| <= n then s else s[..n]
  }

  function Header(section: string): string {
    "[" + Clip(section, INI_BUFFERSIZE - 5) + "]"
  }

  /** A new entry is cut to the line buffer, except when it is written in front of another section. */
  function Assignment(key: string, value: string): string {
    var k := Clip(key, INI_BUFFERSIZE - 4);
    k + "=" + Clip(value, INI_BUFFERSIZE - 4 - |k|)
  }

  /** What will be read of a header that is written: one line, if the name is a good one. */
  function HeaderLines(section: string): seq<string> {
    if section == "" then [] else Content(Header(section) + "\n")
  }

  /** What will be read of an entry that replaces another or ends the file; nothing when it is deleted. */
  function NewLines(key: string, value: Option<string>): seq<string> {
    if value.Some? then Content(Assignment(key, value.value) + "\n") else []
  }

  /** What will be read of an entry that is written in front of a header. */
  function Inserted(key: string, value: Option<string>): seq<string> {
    if value.Some? then Content(key + "=" + value.value + "\n") else []
  }

  function EditHere(lines: seq<string>, key: string, value: Option<string>): seq<string> {
    if lines == [] then NewLines(key, value)
    else if Opens(lines[0]) then Inserted(key, value) + lines
    else if HasRawKey(lines[0], key) then NewLines(key, value) + lines[1..]
    else [lines[0]] + EditHere(lines[1..], key, value)
  }

  function Edit(lines: seq<string>, section: string, key: string, value: Option<string>): seq<string> {
    if section == "" then EditHere(lines, key, value)
    else if lines == [] then (if value.Some? then HeaderLines(section) + NewLines(key, value) else [])
    else if IsHeader(lines[0], section) then [lines[0]] + EditHere(lines[1..], key, value)
    else [lines[0]] + Edit(lines[1..], section, key, value)
  }

  /** The lines from the next header on. */
  function FromNextHeader(lines: seq<string>): seq<string> {
    if lines == [] || Opens(lines[0]) then lines else FromNextHeader(lines[1..])
  }

  function Erase(lines: seq<string>, section: string): seq<string> {
    if section == "" then FromNextHeader(lines)
    else if lines == [] then []
    else if IsHeader(lines[0], section) then FromNextHeader(lines[1..])
    else [lines[0]] + Erase(lines[1..], section)
  }

  /** A file, or its absence. */
  type File = Option<seq<string>>

  /** Setting or deleting an entry, or erasing a section if there is no key. */
  function Puts(f: File, section: string, key: Option<string>, value: Option<string>): File {
    match f
    case None =>
      if key.Some? && value.Some? then
        Some(HeaderLines(section) + NewLines(key.value, value))
      else None
    case Some(lines) =>
      if key.None? then Some(Erase(lines, section))
      else if value.Some? && Lookup(lines, section, key.value) == value then f
      else Some(Edit(lines, section, key.value, value))
  }

  function Gets(f: File, section: string, key: string): Option<string> {
    match f
    case None => None
    case Some(lines) => Lookup(lines, section, key)
  }
}

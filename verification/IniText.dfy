/**
 * INI files as text: the lines a reader gets from it, and the lines of what is written piece by piece.
 */
module IniText {
  import opened IniSpec

  predicate Trimmed(s: string) {
    s == "" || (!Blank(s[0]) && !Blank(s[|s| - 1]))
  }

  predicate OneLine(s: string) {
    '\n' !in s
  }

  /** Whatever is written next begins a line. */
  predicate Closed(text: string) {
    text == "" || text[|text| - 1] == '\n'
  }

  /** Something that is read at once. */
  predicate APiece(p: string) {
    p != "" && |p| < INI_BUFFERSIZE && OneLine(p[..|p| - 1])
  }

  /** What comes behind the piece is not read with it. */
  predicate Ends(p: string) {
    p != "" && (p[|p| - 1] == '\n' || |p| == INI_BUFFERSIZE - 1)
  }

  /** Whatever is written next is not read with what is there. */
  predicate Aligned(text: string) {
    var ps := Pieces(text);
    ps == [] || Ends(ps[|ps| - 1])
  }

  /** The piece is still read by itself once the blanks in front of it are dropped. */
  predicate Keeps(p: string) {
    p != "" && (p[|p| - 1] == '\n' || !Blank(p[0]))
  }

  /** A text whose pieces all keep. */
  predicate Sound(text: string) {
    forall i | 0 <= i < |Pieces(text)| :: Keeps(Pieces(text)[i])
  }

  /** A text whose pieces all keep, except perhaps the last: copied without leading blanks, it is read as before. */
  predicate Steady(text: string) {
    forall i | 0 <= i < |Pieces(text)| - 1 :: Keeps(Pieces(text)[i])
  }

  // ---- Strings -------------------------------------------------------------------------------------

  lemma {:induction false} FindAbsent(s: string, c: char)
    ensures Find(s, c) == |s| <==> c !in s
  {
    if s != "" && s[0] != c {
      FindAbsent(s[1..], c);
      assert s == [s[0]] + s[1..];
    }
  }

  lemma {:induction false} FindBehind(a: string, b: string, c: char)
    requires c !in a
    ensures Find(a + b, c) == |a| + Find(b, c)
  {
    if a == "" {
      assert a + b == b;
    } else {
      assert (a + b)[0] == a[0] && a[0] in a;
      assert (a + b)[1..] == a[1..] + b;
      FindBehind(a[1..], b, c);
    }
  }

  lemma {:induction false} FindWithin(a: string, b: string, c: char)
    requires c in a
    ensures Find(a + b, c) == Find(a, c) < |a|
  {
    assert (a + b)[0] == a[0];
    if a[0] != c {
      assert (a + b)[1..] == a[1..] + b;
      assert a == [a[0]] + a[1..];
      FindWithin(a[1..], b, c);
    }
  }

  lemma {:induction false} FindFirst(s: string, c: char)
    ensures c !in s[..Find(s, c)]
  {
    if s != "" && s[0] != c {
      FindFirst(s[1..], c);
      assert s[..Find(s, c)] == [s[0]] + s[1..][..Find(s[1..], c)];
    }
  }

  lemma TrimmedStays(s: string)
    requires Trimmed(s)
    ensures SkipLeading(s) == s && StripTrailing(s) == s && Trim(s) == s
  {
  }

  lemma {:induction false} StripShortens(s: string)
    ensures |StripTrailing(s)| <= |s|
    ensures s != "" && Blank(s[|s| - 1]) ==> |StripTrailing(s)| < |s|
  {
    if s != "" && Blank(s[|s| - 1]) {
      StripShortens(s[..|s| - 1]);
    }
  }

  lemma {:induction false} SkipShortens(s: string)
    ensures |SkipLeading(s)| <= |s|
  {
    if s != "" && Blank(s[0]) { SkipShortens(s[1..]); }
  }

  lemma TrimShortens(s: string)
    ensures |Trim(s)| <= |s|
  {
    SkipShortens(s);
    StripShortens(SkipLeading(s));
  }

  lemma {:induction false} SkipIsSuffix(s: string)
    ensures |SkipLeading(s)| <= |s| && SkipLeading(s) == s[|s| - |SkipLeading(s)|..]
  {
    if s != "" && Blank(s[0]) {
      SkipIsSuffix(s[1..]);
    }
  }

  // ---- Trimming ------------------------------------------------------------------------------------

  lemma {:induction false} TrimSkipped(s: string)
    ensures Trim(SkipLeading(s)) == Trim(s) && SkipLeading(SkipLeading(s)) == SkipLeading(s)
  {
    if s != "" && Blank(s[0]) {
      TrimSkipped(s[1..]);
    }
  }

  lemma {:induction false} StripBlank(s: string, c: char)
    requires Blank(c)
    ensures StripTrailing(s + [c]) == StripTrailing(s)
  {
    assert (s + [c])[..|s|] == s;
  }

  lemma {:induction false} SkipAppend(s: string, c: char)
    requires Blank(c)
    ensures Trim(s + [c]) == Trim(s)
  {
    if s == "" {
      assert s + [c] == [c];
      assert SkipLeading([c]) == "";
    } else if Blank(s[0]) {
      assert (s + [c])[1..] == s[1..] + [c];
      SkipAppend(s[1..], c);
    } else {
      StripBlank(s, c);
    }
  }

  /** A line end does not matter to the trimmed line. */
  lemma LineEndTrimmed(s: string)
    ensures Trim(s + "\n") == Trim(s)
  {
    SkipAppend(s, '\n');
  }

  lemma {:induction false} SkippedEmpty(s: string)
    ensures SkipLeading(s) == "" <==> Trim(s) == ""
    ensures SkipLeading(s) != "" ==> !Blank(SkipLeading(s)[0])
  {
    if s != "" && Blank(s[0]) {
      SkippedEmpty(s[1..]);
    } else if s != "" {
      StripKeepsFirst(s);
    }
  }

  lemma {:induction false} StripKeepsFirst(s: string)
    requires s != "" && !Blank(s[0])
    ensures StripTrailing(s) != "" && StripTrailing(s)[0] == s[0]
  {
    if Blank(s[|s| - 1]) {
      StripKeepsFirst(s[..|s| - 1]);
    }
  }

  // ---- Pieces --------------------------------------------------------------------------------------

  lemma PiecesStep(text: string)
    requires text != ""
    ensures Pieces(text) == [text[..ReadLength(text)]] + Pieces(text[ReadLength(text)..])
  {
    hide ReadLength;
  }

  /** What is read is a piece of the text, and only the last can be followed by more. */
  lemma PieceRead(text: string)
    requires text != ""
    ensures var n := ReadLength(text); APiece(text[..n]) && (n < |text| ==> Ends(text[..n]))
  {
    var n := ReadLength(text);
    FindFirst(text, '\n');
    hide Find;
    var f := text[..Find(text, '\n')];
    assert forall i | 0 <= i < n - 1 :: text[..n][..n - 1][i] == f[i];
  }

  lemma PieceLength(p: string)
    requires APiece(p)
    ensures ReadLength(p) == |p|
  {
    var l, c := p[..|p| - 1], p[|p| - 1];
    assert p == l + [c];
    FindAbsent(l, '\n');
    FindBehind(l, [c], '\n');
    FindOne(c);
    hide Find;
  }

  lemma FindOne(c: char)
    ensures Find([c], '\n') == if c == '\n' then 0 else 1
  {
    assert [c][1..] == "";
  }

  lemma OnePiece(p: string)
    requires APiece(p)
    ensures ReadLength(p) == |p| && Pieces(p) == [p] && Content(p) == NonBlank(p)
  {
    hide *;
    PieceLength(p);
    Nonempty(p);
    PiecesStep(p);
    assert p[..|p|] == p && p[|p|..] == "";
    NoPieces("", "");
    ContentIs(p);
    NonBlanksOne(p);
  }

  lemma Nonempty(p: string)
    requires APiece(p)
    ensures p != ""
  {
  }

  /** More text behind it does not change what is read first. */
  lemma ReadAhead(a: string, b: string)
    requires a != "" && Ends(a[..ReadLength(a)])
    ensures var n := ReadLength(a);
      a + b != "" && ReadLength(a + b) == n && (a + b)[..n] == a[..n] && (a + b)[n..] == a[n..] + b
  {
    FindAbsent(a, '\n');
    if '\n' in a {
      FindWithin(a, b, '\n');
    } else {
      FindBehind(a, b, '\n');
    }
    var n := ReadLength(a);
    assert a[..n][n - 1] in a;
    hide Find;
  }

  lemma AlignedRest(a: string)
    requires Aligned(a) && a != ""
    ensures Ends(a[..ReadLength(a)]) && Aligned(a[ReadLength(a)..])
  {
    PiecesStep(a);
    PieceRead(a);
    hide ReadLength, Ends, APiece;
  }

  lemma Joined<T>(x: seq<T>, y: seq<T>, z: seq<T>)
    ensures x + (y + z) == (x + y) + z
  {
  }

  lemma NoPieces(a: string, b: string)
    ensures a == "" ==> Pieces(a) == [] && Pieces(a + b) == [] + Pieces(b)
  {
    assert a == "" ==> a + b == b;
    hide ReadLength;
  }

  /** The pieces of a text are those of its parts, if the first part is aligned. */
  lemma {:induction false} PiecesJoined(a: string, b: string)
    requires Aligned(a)
    ensures Pieces(a + b) == Pieces(a) + Pieces(b)
    decreases |a|
  {
    hide *;
    NoPieces(a, b);
    if a != "" {
      AlignedRest(a);
      ReadAhead(a, b);
      var n := ReadLength(a);
      PiecesStep(a);
      PiecesStep(a + b);
      PiecesJoined(a[n..], b);
      Joined([a[..n]], Pieces(a[n..]), Pieces(b));
    }
  }

  lemma {:induction false} NonBlanksJoined(x: seq<string>, y: seq<string>)
    ensures NonBlanks(x + y) == NonBlanks(x) + NonBlanks(y)
  {
    hide NonBlank;
    if x == [] {
      assert x + y == y;
    } else {
      assert (x + y)[1..] == x[1..] + y;
      NonBlanksJoined(x[1..], y);
      Joined(NonBlank(x[0]), NonBlanks(x[1..]), NonBlanks(y));
    }
  }

  lemma {:induction false} LastPiece(text: string)
    requires text != ""
    ensures var ps := Pieces(text); ps != [] && APiece(ps[|ps| - 1])
    ensures var p := Pieces(text)[|Pieces(text)| - 1]; p[|p| - 1] == text[|text| - 1]
    decreases |text|
  {
    var n := ReadLength(text);
    PiecesStep(text);
    PieceRead(text);
    hide ReadLength, APiece;
    if n < |text| { LastPiece(text[n..]); }
  }

  lemma ClosedAligned(a: string)
    requires Closed(a)
    ensures Aligned(a)
  {
    if a != "" { LastPiece(a); }
    hide APiece;
  }

  lemma AlignedJoined(a: string, b: string)
    requires Aligned(a) && Aligned(b)
    ensures Aligned(a + b)
  {
    PiecesJoined(a, b);
    hide Pieces, Ends;
  }

  /** The lines of a text are those of its parts, if the first part is aligned. */
  lemma ContentJoined(a: string, b: string)
    requires Aligned(a)
    ensures Content(a + b) == Content(a) + Content(b)
  {
    PiecesJoined(a, b);
    NonBlanksJoined(Pieces(a), Pieces(b));
    hide Pieces, NonBlanks;
  }

  lemma SoundJoined(a: string, b: string)
    requires Aligned(a) && Sound(a) && Sound(b)
    ensures Sound(a + b)
  {
    PiecesJoined(a, b);
    hide Pieces, Keeps, Aligned;
  }

  lemma LineEndAlone()
    ensures Pieces("\n") == ["\n"] && NonBlank("\n") == [] && Content("\n") == []
  {
    assert APiece("\n");
    OnePiece("\n");
    assert Trim("\n") == "" by {
      LineEndTrimmed("");
      assert "" + "\n" == "\n";
    }
  }

  /** A line end becomes a piece of its own or ends the last one. */
  lemma {:induction false} LineEndPieces(a: string)
    ensures var ps := Pieces(a); var m := |ps|;
      Pieces(a + "\n") == if Aligned(a) then ps + ["\n"] else ps[..m - 1] + [ps[m - 1] + "\n"]
    decreases |a|
  {
    hide *;
    LineEndAlone();
    if Aligned(a) {
      PiecesJoined(a, "\n");
    } else {
      NotEmpty(a);
      var n := ReadLength(a);
      PiecesStep(a);
      PieceRead(a);
      if n == |a| {
        assert a[..n] == a;
        OnePiece(a);
        LastLine(a);
      } else {
        ReadAhead(a, "\n");
        PiecesStep(a + "\n");
        UnalignedRest(a);
        NotEmpty(a[n..]);
        LineEndPieces(a[n..]);
      }
    }
  }

  lemma NotEmpty(a: string)
    requires !Aligned(a)
    ensures a != "" && Pieces(a) != []
  {
  }

  lemma LastLine(a: string)
    requires APiece(a) && Pieces(a) == [a] && !Aligned(a)
    ensures APiece(a + "\n") && Pieces(a + "\n") == [a + "\n"]
  {
    hide Pieces;
    assert (a + "\n")[..|a|] == a;
    assert a == a[..|a| - 1] + [a[|a| - 1]];
    OnePiece(a + "\n");
  }

  lemma UnalignedRest(a: string)
    requires !Aligned(a) && ReadLength(a) < |a|
    ensures !Aligned(a[ReadLength(a)..])
  {
    PiecesStep(a);
    var r := a[ReadLength(a)..];
    assert r != "" && Pieces(r) != [];
    hide ReadLength, Ends;
  }

  /** A line end behind a text changes none of its lines, and what is written next begins another. */
  lemma ContentClosed(a: string)
    ensures Content(a + "\n") == Content(a) && Closed(a + "\n") && Aligned(a + "\n")
    ensures Sound(a) ==> Sound(a + "\n")
  {
    hide *;
    LineEndAlone();
    LineEndPieces(a);
    LineEndCloses(a);
    ClosedAligned(a + "\n");
    ContentIs(a);
    ContentIs(a + "\n");
    var ps := Pieces(a);
    if Aligned(a) {
      NonBlanksJoined(ps, ["\n"]);
      NonBlanksOne("\n");
    } else {
      NotEmpty(a);
      var init, p := ps[..|ps| - 1], ps[|ps| - 1];
      assert ps == init + [p];
      NonBlanksJoined(init, [p]);
      NonBlanksJoined(init, [p + "\n"]);
      NonBlanksOne(p);
      NonBlanksOne(p + "\n");
      LineEndTrimmed(p);
      NonBlankIs(p, p + "\n");
    }
  }

  lemma NonBlankIs(p: string, q: string)
    requires Trim(p) == Trim(q)
    ensures NonBlank(p) == NonBlank(q)
  {
    hide Trim;
  }

  lemma ContentIs(a: string)
    ensures Content(a) == NonBlanks(Pieces(a))
  {
    hide NonBlanks, Pieces;
  }

  lemma NonBlanksOne(p: string)
    ensures NonBlanks([p]) == NonBlank(p)
  {
    hide NonBlank;
    assert [p][1..] == [];
  }

  lemma LineEndCloses(a: string)
    requires Pieces(a + "\n") == if Aligned(a) then Pieces(a) + ["\n"]
                                 else Pieces(a)[..|Pieces(a)| - 1] + [Pieces(a)[|Pieces(a)| - 1] + "\n"]
    ensures Closed(a + "\n") && (Sound(a) ==> Sound(a + "\n"))
  {
    hide Pieces, Ends;
  }

  // ---- Copying and writing -------------------------------------------------------------------------

  /** What is left of a piece once the blanks in front of it are skipped is a piece too. */
  lemma SkippedPiece(p: string)
    requires APiece(p) && SkipLeading(p) != ""
    ensures var sp := SkipLeading(p);
      && APiece(sp) && sp[|sp| - 1] == p[|p| - 1] && !Blank(sp[0]) && Trim(sp) == Trim(p)
      && (!Blank(p[0]) ==> sp == p)
  {
    var sp := SkipLeading(p);
    SkippedEmpty(p);
    TrimSkipped(p);
    SkipIsSuffix(p);
    assert !Blank(p[0]) ==> sp == p;
    hide SkipLeading, Trim;
    var l, m := sp[..|sp| - 1], p[..|p| - 1];
    forall i | 0 <= i < |l| ensures l[i] != '\n' {
      assert l[i] == m[|p| - |sp| + i];
    }
  }

  /** A piece copied without the blanks in front of it. */
  lemma CopyPiece(out: string, p: string)
    requires Aligned(out) && APiece(p) && SkipLeading(p) != ""
    ensures Content(out + SkipLeading(p)) == Content(out) + NonBlank(p)
    ensures Keeps(p) && Ends(p) ==> Aligned(out + SkipLeading(p))
    ensures Sound(out) ==> Sound(out + SkipLeading(p))
  {
    var sp := SkipLeading(p);
    SkippedPiece(p);
    OnePiece(sp);
    ContentJoined(out, sp);
    PiecesJoined(out, sp);
    hide Content, SkipLeading, Trim, Pieces;
  }

  /** A text that fits the buffer and ends with a line end is sound. */
  lemma {:induction false} ShortSound(t: string)
    requires Closed(t) && |t| < INI_BUFFERSIZE
    ensures Sound(t)
    decreases |t|
  {
    if t != "" {
      FindAbsent(t, '\n');
      assert t[|t| - 1] in t;
      var n := ReadLength(t);
      assert t[..n][n - 1] == '\n';
      PiecesStep(t);
      hide Find, ReadLength;
      ShortSound(t[n..]);
    }
  }

  /** Writing something that ends with a line end. */
  lemma WriteText(out: string, t: string)
    requires Aligned(out)
    ensures Content(out + t + "\n") == Content(out) + Content(t + "\n") && Aligned(out + t + "\n")
    ensures Sound(out) && Sound(t + "\n") ==> Sound(out + t + "\n")
  {
    assert out + t + "\n" == out + (t + "\n");
    ClosedAligned(t + "\n");
    ContentJoined(out, t + "\n");
    AlignedJoined(out, t + "\n");
    if Sound(out) && Sound(t + "\n") { SoundJoined(out, t + "\n"); }
    hide Content, Aligned, Sound;
  }

  /** A trimmed line that fits is read as it is written. */
  lemma LineAlone(line: string)
    requires OneLine(line) && line != "" && Trimmed(line) && |line| < INI_BUFFERSIZE
    ensures Content(line + "\n") == [line]
  {
    var p := line[..|line| - 1];
    ContentClosed(line);
    OnePiece(line);
    TrimmedStays(line);
    hide Content, Trim;
  }

  // ---- The blanks behind a line --------------------------------------------------------------------

  lemma {:induction false} StripIsPrefix(s: string)
    ensures |StripTrailing(s)| <= |s| && StripTrailing(s) == s[..|StripTrailing(s)|]
    ensures forall i | |StripTrailing(s)| <= i < |s| :: Blank(s[i])
  {
    if s != "" && Blank(s[|s| - 1]) {
      StripIsPrefix(s[..|s| - 1]);
      assert forall i | 0 <= i < |s| - 1 :: s[i] == s[..|s| - 1][i];
    }
  }

  lemma FindStripped(s: string, c: char)
    requires !Blank(c)
    ensures var t := StripTrailing(s);
      (Find(t, c) < |t| <==> Find(s, c) < |s|) && (Find(t, c) < |t| ==> Find(t, c) == Find(s, c))
  {
    var t := StripTrailing(s);
    StripIsPrefix(s);
    FindAbsent(t, c);
    FindAbsent(s, c);
    hide StripTrailing, Find;
    if c in t {
      var w := s[|t|..];
      assert s == t + w;
      FindWithin(t, w, c);
    }
  }

  lemma {:induction false} TrimAppend(s: string, w: string)
    requires forall i | 0 <= i < |w| :: Blank(w[i])
    ensures Trim(s + w) == Trim(s)
    decreases |w|
  {
    if w == "" {
      assert s + w == s;
    } else {
      var v := w[..|w| - 1];
      TrimAppend(s, v);
      SkipAppend(s + v, w[|w| - 1]);
      assert s + w == s + v + [w[|w| - 1]];
    }
  }

  lemma SepStripped(s: string)
    ensures var t := StripTrailing(s);
      (Sep(s) < |s| <==> Sep(t) < |t|) && (Sep(t) < |t| ==> Sep(t) == Sep(s) && t[..Sep(t)] == s[..Sep(s)])
  {
    FindStripped(s, '=');
    FindStripped(s, ':');
    StripIsPrefix(s);
    hide Find, StripTrailing;
  }

  lemma RestStripped(s: string, n: nat)
    requires n <= |StripTrailing(s)|
    ensures n <= |s| && Trim(StripTrailing(s)[n..]) == Trim(s[n..])
  {
    var t := StripTrailing(s);
    StripIsPrefix(s);
    hide Find, StripTrailing, Trim;
    var w := s[|t|..];
    assert s[n..] == t[n..] + w;
    TrimAppend(t[n..], w);
  }

  /** Everything the code decides about a line is the same with the blanks behind it and without. */
  lemma Stripped(s: string)
    ensures var t := StripTrailing(s);
      && (Sep(s) < |s| <==> Sep(t) < |t|) && (Sep(t) < |t| ==> Sep(t) == Sep(s) && t[..Sep(t)] == s[..Sep(s)])
      && (Sep(t) < |t| ==> ValueOf(t) == ValueOf(s))
  {
    var t := StripTrailing(s);
    SepStripped(s);
    hide StripTrailing, Trim, Unquote, Sep;
    if Sep(t) < |t| {
      RestStripped(s, Sep(t) + 1);
    }
  }

  lemma StrippedHead(s: string)
    requires s != "" && !Blank(s[0])
    ensures var t := StripTrailing(s);
      Opens(s) == Opens(t) && Comment(s) == Comment(t) && Name(s) == Name(t)
  {
    var t := StripTrailing(s);
    StripKeepsFirst(s);
    StripIsPrefix(s);
    FindStripped(s, ']');
    hide Find, StripTrailing;
    var e := Find(t, ']');
    if Opens(t) && e < |t| {
      assert t[1..e] == s[1..e];
    }
  }
}

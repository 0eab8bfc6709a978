/**
 * Where an edit writes: one line is replaced, added or taken out, and every other line stays in its place.
 */
module IniPlace {
  import opened IniSpec

  /** The line is neither a header nor one the edit looks for. */
  predicate Passed(t: string, k: string) {
    !Opens(t) && !HasRawKey(t, k)
  }

  predicate AllPassed(lines: seq<string>, k: string) {
    forall i | 0 <= i < |lines| :: Passed(lines[i], k)
  }

  /** A file cut in three: in front, the line that is replaced if there is one, behind. */
  datatype Cut = Cut(front: seq<string>, was: seq<string>, back: seq<string>) {
    function Lines(): seq<string> { front + was + back }

    /** The line is the first the edit looks for, or there is none up to the next header or the end. */
    predicate At(k: string) {
      && AllPassed(front, k)
      && (was == [] || (|was| == 1 && !Opens(was[0]) && HasRawKey(was[0], k)))
      && (was == [] ==> back == [] || Opens(back[0]))
    }

    function With(k: string, v: Option<string>): seq<string> {
      front + (if was == [] && back != [] then Inserted(k, v) else NewLines(k, v)) + back
    }

    function Behind(more: seq<string>): Cut { Cut(more + front, was, back) }
  }

  lemma CutBehind(c: Cut, first: string, k: string, v: Option<string>)
    ensures c.Behind([first]).Lines() == [first] + c.Lines() && c.Behind([first]).With(k, v) == [first] + c.With(k, v)
    ensures c.At(k) && Passed(first, k) ==> c.Behind([first]).At(k)
  {
    hide Opens, HasRawKey, Inserted, NewLines;
    var new0 := if c.was == [] && c.back != [] then Inserted(k, v) else NewLines(k, v);
    assert [first] + c.front + c.was + c.back == [first] + (c.front + c.was + c.back);
    assert [first] + c.front + new0 + c.back == [first] + (c.front + new0 + c.back);
  }

  lemma CutHere(lines: seq<string>, k: string, v: Option<string>)
    ensures lines == [] || Opens(lines[0]) ==> Cut([], [], lines).At(k)
    ensures lines != [] && !Opens(lines[0]) && HasRawKey(lines[0], k) ==> Cut([], [lines[0]], lines[1..]).At(k)
    ensures Cut([], [], lines).Lines() == lines
    ensures Cut([], [], lines).With(k, v) == if lines == [] then NewLines(k, v) else Inserted(k, v) + lines
    ensures lines != [] ==>
              && Cut([], [lines[0]], lines[1..]).Lines() == lines
              && Cut([], [lines[0]], lines[1..]).With(k, v) == NewLines(k, v) + lines[1..]
  {
    hide HasRawKey, Opens, NewLines, Inserted;
    assert [] + [] + lines == lines && [] + Inserted(k, v) + lines == Inserted(k, v) + lines;
    assert [] + NewLines(k, v) + [] == NewLines(k, v);
    assert lines != [] ==> [] + [lines[0]] + lines[1..] == lines;
    assert lines != [] ==> [] + NewLines(k, v) + lines[1..] == NewLines(k, v) + lines[1..];
  }

  lemma {:induction false} EditHerePlace(lines: seq<string>, k: string, v: Option<string>) returns (c: Cut)
    ensures c.Lines() == lines && c.At(k) && EditHere(lines, k, v) == c.With(k, v)
  {
    CutHere(lines, k, v);
    hide HasRawKey, NewLines, Inserted, Cut.Lines, Cut.With, Cut.At;
    if lines == [] || Opens(lines[0]) {
      c := Cut([], [], lines);
    } else if HasRawKey(lines[0], k) {
      c := Cut([], [lines[0]], lines[1..]);
    } else {
      c := EditHerePlace(lines[1..], k, v);
      CutBehind(c, lines[0], k, v);
      c := c.Behind([lines[0]]);
    }
  }

  /** The lines of a file up to the first header of the section. */
  lemma {:induction false} UpToSection(lines: seq<string>, s: string) returns (head: seq<string>)
    requires Behind(lines, s).Some?
    ensures lines == head + Behind(lines, s).value
    ensures s == "" ==> head == []
    ensures s != "" ==> head != [] && IsHeader(head[|head| - 1], s)
    ensures forall i | 0 <= i < |head| - 1 :: !IsHeader(head[i], s)
  {
    hide IsHeader;
    if s == "" {
      head := [];
    } else if IsHeader(lines[0], s) {
      head := [lines[0]];
    } else {
      var more := UpToSection(lines[1..], s);
      head := [lines[0]] + more;
      assert lines == [lines[0]] + lines[1..];
      assert forall i | 0 < i < |head| :: head[i] == more[i - 1];
    }
  }

  lemma Step(lines: seq<string>, s: string, k: string, v: Option<string>)
    requires s != "" && lines != []
    ensures IsHeader(lines[0], s) ==>
              && Behind(lines, s) == Some(lines[1..]) && Edit(lines, s, k, v) == [lines[0]] + EditHere(lines[1..], k, v)
              && Erase(lines, s) == FromNextHeader(lines[1..])
    ensures !IsHeader(lines[0], s) ==>
              && Behind(lines, s) == Behind(lines[1..], s)
              && Edit(lines, s, k, v) == [lines[0]] + Edit(lines[1..], s, k, v)
              && Erase(lines, s) == [lines[0]] + Erase(lines[1..], s)
  {
    hide IsHeader, EditHere, FromNextHeader;
  }

  lemma NoStep(lines: seq<string>, s: string, k: string, v: Option<string>)
    ensures s == "" ==>
              Behind(lines, s) == Some(lines) && Edit(lines, s, k, v) == EditHere(lines, k, v)
              && Erase(lines, s) == FromNextHeader(lines)
    ensures s != "" && lines == [] ==>
              && Behind(lines, s) == None && Erase(lines, s) == []
              && Edit(lines, s, k, v) == if v.Some? then HeaderLines(s) + NewLines(k, v) else []
  {
    hide EditHere, HeaderLines, NewLines, FromNextHeader;
  }

  lemma {:induction false} EditBehindHead(lines: seq<string>, s: string, k: string, v: Option<string>,
                                          head: seq<string>)
    requires Behind(lines, s).Some? && lines == head + Behind(lines, s).value
    ensures Edit(lines, s, k, v) == head + EditHere(Behind(lines, s).value, k, v)
  {
    hide *;
    NoStep(lines, s, k, v);
    if s == "" {
      assert |head| == 0;
    } else {
      Step(lines, s, k, v);
      BehindShorter(lines, s);
      HeadStep(lines, head, Behind(lines, s).value);
      if IsHeader(lines[0], s) {
        assert |lines| == |Behind(lines, s).value| + 1;
      } else {
        EditBehindHead(lines[1..], s, k, v, head[1..]);
        Assoc(head[0], head[1..], EditHere(Behind(lines, s).value, k, v));
      }
    }
  }

  lemma Assoc(first: string, more: seq<string>, rest: seq<string>)
    ensures [first] + (more + rest) == ([first] + more) + rest
  {
  }

  lemma HeadStep(lines: seq<string>, head: seq<string>, rest: seq<string>)
    requires lines == head + rest && |rest| < |lines|
    ensures head != [] && lines[0] == head[0] && lines[1..] == head[1..] + rest && head == [head[0]] + head[1..]
    ensures |lines| == |rest| + 1 ==> head == [lines[0]]
    ensures |head| > 1 ==> head[..|head| - 1] == [head[0]] + head[1..][..|head| - 2]
  {
  }

  lemma {:induction false} BehindShorter(lines: seq<string>, s: string)
    requires Behind(lines, s).Some? && s != ""
    ensures |Behind(lines, s).value| < |lines|
  {
    hide IsHeader;
    if !IsHeader(lines[0], s) { BehindShorter(lines[1..], s); }
  }

  /**
   * An edit of a section that is there: behind its first header, and in front of the next header, the first line of
   * the key is replaced or taken out; if there is none, the entry is added as the section's last line.
   */
  lemma EditPlace(lines: seq<string>, s: string, k: string, v: Option<string>) returns (head: seq<string>, c: Cut)
    requires Behind(lines, s).Some?
    ensures lines == head + c.Lines() && Edit(lines, s, k, v) == head + c.With(k, v) && c.At(k)
    ensures s == "" ==> head == []
    ensures s != "" ==> head != [] && IsHeader(head[|head| - 1], s)
    ensures forall i | 0 <= i < |head| - 1 :: !IsHeader(head[i], s)
  {
    hide *;
    head := UpToSection(lines, s);
    EditBehindHead(lines, s, k, v, head);
    c := EditHerePlace(Behind(lines, s).value, k, v);
  }

  /** A section that is not there is added with the entry at the end, and nothing is done if there is nothing to add. */
  lemma {:induction false} EditAtEnd(lines: seq<string>, s: string, k: string, v: Option<string>)
    requires Behind(lines, s).None?
    ensures Edit(lines, s, k, v) == lines + if v.Some? then HeaderLines(s) + NewLines(k, v) else []
  {
    hide *;
    NoStep(lines, s, k, v);
    if lines != [] {
      Step(lines, s, k, v);
      EditAtEnd(lines[1..], s, k, v);
      assert lines == [lines[0]] + lines[1..];
      Assoc(lines[0], lines[1..], if v.Some? then HeaderLines(s) + NewLines(k, v) else []);
    }
  }

  lemma NextStep(lines: seq<string>)
    ensures FromNextHeader(lines) == if lines == [] || Opens(lines[0]) then lines else FromNextHeader(lines[1..])
  {
    hide Opens;
  }

  lemma {:induction false} NextHeaderCut(lines: seq<string>) returns (gone: seq<string>)
    ensures lines == gone + FromNextHeader(lines) && forall i | 0 <= i < |gone| :: !Opens(gone[i])
    ensures FromNextHeader(lines) == [] || Opens(FromNextHeader(lines)[0])
  {
    hide *;
    NextStep(lines);
    if lines == [] || Opens(lines[0]) {
      gone := [];
    } else {
      var more := NextHeaderCut(lines[1..]);
      gone := [lines[0]] + more;
      assert lines == [lines[0]] + lines[1..];
      Assoc(lines[0], more, FromNextHeader(lines));
    }
  }

  lemma {:induction false} EraseBehindHead(lines: seq<string>, s: string, head: seq<string>)
    requires Behind(lines, s).Some? && lines == head + Behind(lines, s).value
    ensures s == "" ==> Erase(lines, s) == FromNextHeader(lines)
    ensures s != "" ==> head != [] && Erase(lines, s) == head[..|head| - 1] + FromNextHeader(Behind(lines, s).value)
  {
    hide *;
    NoStep(lines, s, "", None);
    if s != "" {
      Step(lines, s, "", None);
      BehindShorter(lines, s);
      HeadStep(lines, head, Behind(lines, s).value);
      if IsHeader(lines[0], s) {
        assert |lines| == |Behind(lines, s).value| + 1;
      } else {
        EraseBehindHead(lines[1..], s, head[1..]);
        Assoc(head[0], head[1..][..|head| - 2], FromNextHeader(Behind(lines, s).value));
      }
    }
  }

  /** Erasing a section takes out its first header and the lines behind it, up to the next header. */
  lemma ErasePlace(lines: seq<string>, s: string) returns (head: seq<string>, gone: seq<string>, rest: seq<string>)
    requires Behind(lines, s).Some?
    ensures lines == head + gone + rest
    ensures s == "" ==> head == [] && Erase(lines, s) == rest
    ensures s != "" ==> head != [] && IsHeader(head[|head| - 1], s) && Erase(lines, s) == head[..|head| - 1] + rest
    ensures forall i | 0 <= i < |head| - 1 :: !IsHeader(head[i], s)
    ensures forall i | 0 <= i < |gone| :: !Opens(gone[i])
    ensures rest == [] || Opens(rest[0])
  {
    hide *;
    head := UpToSection(lines, s);
    EraseBehindHead(lines, s, head);
    rest := FromNextHeader(Behind(lines, s).value);
    gone := NextHeaderCut(Behind(lines, s).value);
    NoSectionBehind(lines, s);
    assert head + gone + rest == head + (gone + rest);
  }

  lemma NoSectionBehind(lines: seq<string>, s: string)
    ensures s == "" ==> Behind(lines, s) == Some(lines)
  {
  }

  /** Erasing a section that is not there changes nothing. */
  lemma {:induction false} EraseNothing(lines: seq<string>, s: string)
    requires Behind(lines, s).None?
    ensures Erase(lines, s) == lines
  {
    hide IsHeader;
    if lines != [] {
      EraseNothing(lines[1..], s);
      assert lines == [lines[0]] + lines[1..];
    }
  }
}

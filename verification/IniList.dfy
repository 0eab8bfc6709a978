/**
 * The one search behind every reading call, by name or by number; numbering lists what naming finds.
 */
module IniList {
  import opened IniSpec

  datatype Found = Found(text: string, idx: int, rest: seq<string>)

  /** The first header that has the name or the number; idx is the number of the last one passed. */
  function SeekSection(lines: seq<string>, section: string, idx: int, want: int): Option<Found>
    decreases |lines|
  {
    if lines == [] then None
    else if Name(lines[0]).None? then SeekSection(lines[1..], section, idx, want)
    else if IsHeader(lines[0], section) then Some(Found(Name(lines[0]).value, idx, lines[1..]))
    else if idx + 1 == want then Some(Found(Name(lines[0]).value, idx + 1, lines[1..]))
    else SeekSection(lines[1..], section, idx + 1, want)
  }

  /** The first entry in front of the next header that has the key or the number. */
  function SeekKey(lines: seq<string>, key: string, idx: int, want: int): (f: Option<Found>)
    ensures f.Some? ==> Sep(f.value.text) < |f.value.text|
    decreases |lines|
  {
    if lines == [] || Opens(lines[0]) then None
    else if !Entry(lines[0]) then SeekKey(lines[1..], key, idx, want)
    else if HasKey(lines[0], key) then Some(Found(lines[0], idx, lines[1..]))
    else if idx + 1 == want then Some(Found(lines[0], idx + 1, lines[1..]))
    else SeekKey(lines[1..], key, idx + 1, want)
  }

  function OrEmpty(s: Option<string>): string {
    if s.Some? then s.value else ""
  }

  function InSection(lines: seq<string>, key: Option<string>, idxKey: int): Option<string> {
    match SeekKey(lines, OrEmpty(key), -1, idxKey)
    case None => None
    case Some(f) => if idxKey < 0 then Some(ValueOf(f.text)) else if f.idx == idxKey then Some(KeyOf(f.text)) else None
  }

  function Search(lines: seq<string>, section: string, key: Option<string>, idxSection: int, idxKey: int)
    : Option<string>
  {
    if section == "" && idxSection < 0 then InSection(lines, key, idxKey)
    else match SeekSection(lines, section, -1, idxSection)
      case None => None
      case Some(f) =>
        if idxSection < 0 then InSection(f.rest, key, idxKey) else if f.idx == idxSection then Some(f.text) else None
  }

  // ---- By name -------------------------------------------------------------------------------------

  lemma {:induction false} SeekIsBehind(lines: seq<string>, section: string, idx: int)
    requires section != "" && idx >= -1
    ensures SeekSection(lines, section, idx, -1).Some? <==> Behind(lines, section).Some?
    ensures Behind(lines, section).Some? ==>
              SeekSection(lines, section, idx, -1).value.rest == Behind(lines, section).value
    decreases |lines|
  {
    hide Name, Fold;
    if lines != [] && !IsHeader(lines[0], section) {
      SeekIsBehind(lines[1..], section, idx);
      SeekIsBehind(lines[1..], section, idx + 1);
    }
  }

  lemma {:induction false} SeekIsLookup(lines: seq<string>, key: string, idx: int)
    requires idx >= -1
    ensures LookupHere(lines, key)
            == match SeekKey(lines, key, idx, -1) case None => None case Some(f) => Some(ValueOf(f.text))
    decreases |lines|
  {
    hide KeyOf, ValueOf, Fold, Sep;
    if lines != [] && !Opens(lines[0]) && !HasKey(lines[0], key) {
      SeekIsLookup(lines[1..], key, idx);
      SeekIsLookup(lines[1..], key, idx + 1);
    }
  }

  /** The search by names is the lookup. */
  lemma GetsIsLookup(lines: seq<string>, section: string, key: string)
    ensures Search(lines, section, Some(key), -1, -1) == Lookup(lines, section, key)
  {
    if section != "" {
      SeekIsBehind(lines, section, -1);
    }
    if Behind(lines, section).Some? {
      SeekIsLookup(Behind(lines, section).value, key, -1);
    }
  }

  // ---- By number -----------------------------------------------------------------------------------

  /** The section names of a file, in order, each as often as it comes. */
  function Sections(lines: seq<string>): seq<string> {
    if lines == [] then []
    else (if Name(lines[0]).Some? then [Name(lines[0]).value] else []) + Sections(lines[1..])
  }

  /** The keys in front of the next header, in order. */
  function Keys(lines: seq<string>): seq<string> {
    if lines == [] || Opens(lines[0]) then []
    else (if Entry(lines[0]) then [KeyOf(lines[0])] else []) + Keys(lines[1..])
  }

  /** A list up to its first empty name. */
  function UpToEmpty(names: seq<string>): seq<string> {
    if names == [] || names[0] == "" then [] else [names[0]] + UpToEmpty(names[1..])
  }

  function Nth(names: seq<string>, n: nat): Option<string> {
    if n < |names| then Some(names[n]) else None
  }

  lemma EmptyHeader(t: string)
    requires Name(t).Some?
    ensures IsHeader(t, "") <==> Name(t).value == ""
  {
    assert Fold("") == "";
    assert |Fold(Name(t).value)| == |Name(t).value|;
  }

  lemma EmptyKey(t: string)
    requires Entry(t)
    ensures HasKey(t, "") <==> KeyOf(t) == ""
  {
    assert Fold("") == "";
    assert |Fold(KeyOf(t))| == |KeyOf(t)|;
  }

  lemma {:induction false} SectionsSought(lines: seq<string>, idx: int, n: nat)
    requires -1 <= idx < n
    ensures var f := SeekSection(lines, "", idx, n);
      Nth(UpToEmpty(Sections(lines)), n - 1 - idx) == if f.Some? && f.value.idx == n then Some(f.value.text) else None
    decreases |lines|
  {
    hide Name, Fold, IsHeader;
    if lines != [] {
      if Name(lines[0]).None? {
        assert [] + Sections(lines[1..]) == Sections(lines[1..]);
        SectionsSought(lines[1..], idx, n);
      } else {
        EmptyHeader(lines[0]);
        var name := Name(lines[0]).value;
        assert ([name] + Sections(lines[1..]))[1..] == Sections(lines[1..]);
        if name != "" && idx + 1 < n {
          SectionsSought(lines[1..], idx + 1, n);
        }
      }
    }
  }

  lemma {:induction false} KeysSought(lines: seq<string>, idx: int, n: nat)
    requires -1 <= idx < n
    ensures var f := SeekKey(lines, "", idx, n);
      Nth(UpToEmpty(Keys(lines)), n - 1 - idx)
      == if f.Some? && f.value.idx == n then Some(KeyOf(f.value.text)) else None
    decreases |lines|
  {
    hide KeyOf, Fold, HasKey, Entry, Sep;
    if lines != [] && !Opens(lines[0]) {
      if !Entry(lines[0]) {
        assert [] + Keys(lines[1..]) == Keys(lines[1..]);
        KeysSought(lines[1..], idx, n);
      } else {
        EmptyKey(lines[0]);
        var key := KeyOf(lines[0]);
        assert ([key] + Keys(lines[1..]))[1..] == Keys(lines[1..]);
        if key != "" && idx + 1 < n {
          KeysSought(lines[1..], idx + 1, n);
        }
      }
    }
  }

  /** Asked for sections 0, 1, 2, ..., the search lists the headers in order, up to the first without a name. */
  lemma SectionsListed(lines: seq<string>, n: nat)
    ensures Search(lines, "", None, n, -1) == Nth(UpToEmpty(Sections(lines)), n)
  {
    SectionsSought(lines, -1, n);
  }

  /** Asked for keys 0, 1, 2, ..., the search lists the section's keys in order, up to the first empty one. */
  lemma KeysListed(lines: seq<string>, section: string, n: nat)
    ensures Search(lines, section, None, -1, n)
            == match Behind(lines, section)
               case None => None
               case Some(rest) => Nth(UpToEmpty(Keys(rest)), n)
  {
    if section != "" {
      SeekIsBehind(lines, section, -1);
    }
    if Behind(lines, section).Some? {
      KeysSought(Behind(lines, section).value, -1, n);
    }
  }

  ghost predicate Listed(names: seq<string>, name: string) {
    exists i | 0 <= i < |names| :: Fold(names[i]) == Fold(name)
  }

  lemma ListedCons(first: string, names: seq<string>, name: string)
    ensures Listed([first] + names, name) <==> Fold(first) == Fold(name) || Listed(names, name)
  {
    var all := [first] + names;
    if Listed(names, name) {
      var i :| 0 <= i < |names| && Fold(names[i]) == Fold(name);
      assert Fold(all[i + 1]) == Fold(name);
    }
    if Fold(first) == Fold(name) {
      assert Fold(all[0]) == Fold(name);
    }
    if Listed(all, name) {
      var i :| 0 <= i < |all| && Fold(all[i]) == Fold(name);
      assert i > 0 ==> Fold(names[i - 1]) == Fold(name);
    }
  }

  lemma {:induction false} KeysAreFound(lines: seq<string>, key: string)
    ensures Listed(Keys(lines), key) <==> LookupHere(lines, key).Some?
  {
    hide KeyOf, Fold, Sep, ValueOf, Comment, Listed;
    NobodyListed(key);
    if lines != [] && !Opens(lines[0]) {
      KeysAreFound(lines[1..], key);
      if Entry(lines[0]) {
        ListedCons(KeyOf(lines[0]), Keys(lines[1..]), key);
      } else {
        assert [] + Keys(lines[1..]) == Keys(lines[1..]);
      }
    }
  }

  lemma NobodyListed(name: string)
    ensures !Listed([], name)
  {
  }

  lemma {:induction false} UpToEmptyIsAll(names: seq<string>)
    ensures UpToEmpty(names) == names <==> "" !in names
    ensures "" !in UpToEmpty(names)
  {
    if names != [] && names[0] != "" {
      UpToEmptyIsAll(names[1..]);
      assert names == [names[0]] + names[1..];
      assert UpToEmpty(names)[1..] == UpToEmpty(names[1..]);
    }
  }

  lemma EmptyNotListed(names: seq<string>)
    requires "" !in names
    ensures !Listed(names, "")
  {
    forall i | 0 <= i < |names|
      ensures Fold(names[i]) != Fold("")
    {
      assert |Fold(names[i])| == |names[i]| > 0;
    }
  }

  /** The listed keys are the keys a lookup finds, exactly if the section has no empty key. */
  lemma ListsWhatIsFound(lines: seq<string>)
    ensures (forall key: string :: Listed(UpToEmpty(Keys(lines)), key) <==> LookupHere(lines, key).Some?)
            <==> "" !in Keys(lines)
  {
    var keys := Keys(lines);
    UpToEmptyIsAll(keys);
    forall key: string
      ensures Listed(keys, key) <==> LookupHere(lines, key).Some?
    {
      KeysAreFound(lines, key);
    }
    if "" in keys {
      var i :| 0 <= i < |keys| && keys[i] == "";
      assert Fold(keys[i]) == Fold("");
      assert Listed(keys, "");
      EmptyNotListed(UpToEmpty(keys));
      assert !(Listed(UpToEmpty(keys), "") <==> LookupHere(lines, "").Some?);
    }
  }
}

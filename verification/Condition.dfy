/**
 * The Condition class: a growing array of owned alarm objects updated in place.
 */
module Condition {
  import opened ConditionSpec

  class ActiveCondition {
    var mLevel: Level
    var mText: string
    var mNativeCode: string
    var mNativeSeverity: string
    var mQualifier: string
    var mChanged: bool
    var mMarked: bool
    var mPlaceHolder: bool

    ghost function Value(): Entry
      reads this
    {
      Entry(Report(mLevel, mText, mNativeCode, mQualifier, mNativeSeverity), mChanged, mMarked, mPlaceHolder)
    }

    constructor (r: Report)
      ensures Value() == NewEntry(r)
    {
      mChanged, mMarked := true, true;
      mPlaceHolder := Uncoded(r);
      mLevel, mText, mNativeCode := r.level, Clip(r.text), Clip(r.code);
      mQualifier, mNativeSeverity := Clip(r.qualifier), Clip(r.severity);
    }

    method SetValue(r: Report) returns (changed: bool)
      modifies this
      ensures Value() == ConditionSpec.SetValue(old(Value()), r)
      ensures changed == Value().changed
    {
      if Clears(r.level) && r.code == "" {
        mPlaceHolder := true;
      }
      if mLevel != r.level || r.code != mNativeCode || r.qualifier != mQualifier ||
         r.severity != mNativeSeverity || r.text != mText
      {
        mLevel := r.level;
        mNativeCode := Clip(r.code);
        mQualifier := Clip(r.qualifier);
        mNativeSeverity := Clip(r.severity);
        mText := Clip(r.text);
        mChanged := true;
      }
      return mChanged;
    }

    method ToLine() returns (line: Report)
      modifies this`mChanged
      ensures line == old(Value()).value
      ensures Value() == old(Value()).(changed := false)
    {
      line := Report(mLevel, mText, mNativeCode, mQualifier, mNativeSeverity);
      mChanged := false;
    }
  }

  ghost function Values(cs: seq<ActiveCondition>): (l: seq<Entry>)
    reads cs
    ensures |l| == |cs|
    ensures forall i | 0 <= i < |cs| :: l[i] == cs[i].Value()
  {
    seq(|cs|, i requires 0 <= i < |cs| reads cs => cs[i].Value())
  }

  class Condition {
    var mActiveList: array<ActiveCondition?>
    var mActiveSize: nat
    var mActiveCount: nat
    var mChanged: bool
    var mBegun: bool
    var mPrepared: bool
    var mSimple: bool

    /** The objects in the list, in order, and everything this condition may update. */
    ghost var Live: seq<ActiveCondition>
    ghost var Repr: set<object>

    ghost predicate Valid()
      reads this, Repr
      ensures Valid() ==> this in Repr
    {
      && this in Repr && mActiveList in Repr
      && mActiveList.Length == mActiveSize > 0
      && |Live| == mActiveCount <= mActiveSize
      && (forall i | 0 <= i < |Live| :: mActiveList[i] == Live[i] && Live[i] in Repr)
      && (forall i, j | 0 <= i < j < |Live| :: Live[i] != Live[j])
    }

    ghost function Abs(): State
      reads this, Live
    {
      State(Values(Live), mChanged, mBegun, mPrepared, mSimple)
    }

    constructor (simple: bool)
      ensures Valid() && fresh(Repr)
      ensures Abs() == State([NewEntry(Report(Unavailable, "", "", "", ""))], true, false, false, simple)
    {
      mBegun, mPrepared, mChanged, mSimple := false, false, false, simple;
      mActiveSize := 16;
      mActiveCount := 0;
      mActiveList := new ActiveCondition?[16];
      Live := [];
      Repr := {this, mActiveList};
      new;
      var _ := AddReport(Report(Unavailable, "", "", "", ""));
    }

    method RemoveAll()
      requires Valid()
      modifies this`mActiveCount, this`Live
      ensures Valid() && Live == []
    {
      mActiveCount := 0;
      Live := [];
    }

    /** Puts a new object at the end, doubling the array when it is full. */
    method Push(c: ActiveCondition)
      requires Valid() && c !in Live
      modifies this, mActiveList
      ensures Valid() && Live == old(Live) + [c]
      ensures c in Repr && fresh(Repr - old(Repr) - {c})
      ensures mChanged == old(mChanged) && mBegun == old(mBegun)
      ensures mPrepared == old(mPrepared) && mSimple == old(mSimple)
    {
      if mActiveCount >= mActiveSize {
        var newList := new ActiveCondition?[mActiveSize * 2];
        forall i | 0 <= i < mActiveSize {
          newList[i] := mActiveList[i];
        }
        mActiveList := newList;
        mActiveSize := mActiveSize * 2;
        Repr := Repr + {newList};
      }
      mActiveList[mActiveCount] := c;
      mActiveCount := mActiveCount + 1;
      Live := Live + [c];
      Repr := Repr + {c};
    }

    /** Closes the gap left by entry i. */
    method RemoveAt(i: int) returns (ok: bool)
      requires Valid()
      modifies this`mActiveCount, this`Live, mActiveList
      ensures Valid()
      ensures ok == (0 <= i < |old(Live)|)
      ensures Live == if ok then old(Live)[..i] + old(Live)[i + 1..] else old(Live)
      ensures ok ==> Values(Live) == old(Values(Live))[..i] + old(Values(Live))[i + 1..]
    {
      if i < 0 || i >= mActiveCount {
        return false;
      }
      mActiveCount := mActiveCount - 1;
      forall k | i <= k < mActiveCount {
        mActiveList[k] := mActiveList[k + 1];
      }
      Live := Live[..i] + Live[i + 1..];
      return true;
    }

    method FindCode(code: string) returns (i: nat)
      requires Valid()
      ensures i == Find(Abs().list, code)
    {
      i := 0;
      while i < mActiveCount
        invariant i <= mActiveCount
        invariant forall j | 0 <= j < i :: Live[j].mNativeCode != code
      {
        if mActiveList[i].mNativeCode == code {
          return;
        }
        i := i + 1;
      }
    }

    method IsActive(code: string) returns (active: bool)
      requires Valid()
      ensures active <==> exists e :: e in Abs().list && e.value.code == code
    {
      var i := FindCode(code);
      active := i < mActiveCount;
      assert active ==> Abs().list[i] in Abs().list;
    }

    /** Asserts entry i again: its change flag becomes the condition's own. */
    method Reassert(i: nat, r: Report) returns (changed: bool)
      requires Valid() && i < |Live|
      modifies this`mChanged, Live[i]
      ensures Valid() && changed == mChanged
      ensures var e := ConditionSpec.SetValue(old(Abs()).list[i], r);
        Abs() == old(Abs()).(list := old(Abs()).list[i := e.(marked := true)], changed := e.changed)
    {
      changed := mActiveList[i].SetValue(r);
      mChanged := changed;
      mActiveList[i].mMarked := true;
    }

    /** Clears entry i and unmarks it, so that the next sweep drops it. */
    method ClearAt(i: nat, r: Report)
      requires Valid() && i < |Live|
      modifies this`mChanged, Live[i]
      ensures Valid()
      ensures var e := ConditionSpec.SetValue(old(Abs()).list[i], r);
        Abs() == old(Abs()).(list := old(Abs()).list[i := e.(marked := false)], changed := true)
    {
      var _ := mActiveList[i].SetValue(r);
      mActiveList[i].mMarked := false;
      mChanged := true;
    }

    /** Replaces the whole list by one entry. */
    method BecomeOnly(r: Report)
      requires Valid()
      modifies this, mActiveList
      ensures Valid() && fresh(Repr - old(Repr))
      ensures Abs() == old(Abs()).(list := [NewEntry(r)], changed := true)
    {
      RemoveAll();
      var cond := new ActiveCondition(r);
      Push(cond);
      mChanged := true;
    }

    method AddUncoded(level: Level) returns (res: bool)
      requires Valid() && Clears(level)
      modifies Repr
      ensures Valid() && fresh(Repr - old(Repr))
      ensures Abs() == Add(old(Abs()), Report(level, "", "", "", ""))
      ensures res == !AlreadyIn(old(Abs()).list, level)
    {
      if mActiveCount == 1 && mActiveList[0].mNativeCode == "" && mActiveList[0].mLevel == level {
        mActiveList[0].mMarked := true;
        res := false;
      } else {
        BecomeOnly(Report(level, "", "", "", ""));
        res := true;
      }
    }

    method AddCoded(r: Report) returns (res: bool)
      requires Valid() && !Uncoded(r)
      modifies Repr
      ensures Valid() && fresh(Repr - old(Repr))
      ensures Abs() == Add(old(Abs()), r)
      ensures res == Abs().changed
    {
      if mActiveCount == 1 && Clears(mActiveList[0].mLevel) {
        RemoveAll();
      }
      assert Abs() == if LoneClear(old(Abs()).list) then old(Abs()).(list := []) else old(Abs());
      res := PlaceReport(r);
    }

    method PlaceReport(r: Report) returns (res: bool)
      requires Valid()
      modifies Repr
      ensures Valid() && fresh(Repr - old(Repr))
      ensures Abs() == Place(old(Abs()), r)
      ensures res == Abs().changed
    {
      var i := FindCode(r.code);
      if i < mActiveCount {
        res := Reassert(i, r);
      } else {
        AppendNew(r);
        res := true;
      }
    }

    method AppendNew(r: Report)
      requires Valid()
      modifies this, mActiveList
      ensures Valid() && fresh(Repr - old(Repr))
      ensures Abs() == old(Abs()).(list := old(Abs()).list + [NewEntry(r)], changed := true)
    {
      var cond := new ActiveCondition(r);
      Push(cond);
      assert forall k | 0 <= k < |old(Live)| :: Live[k] == old(Live)[k];
      assert Values(Live) == old(Values(Live)) + [NewEntry(r)];
      mChanged := true;
    }

    /** The public add. */
    method AddReport(r: Report) returns (res: bool)
      requires Valid()
      modifies Repr
      ensures Valid() && fresh(Repr - old(Repr))
      ensures Abs() == Add(old(Abs()), r)
      ensures res <==> Abs().changed && !(Uncoded(r) && AlreadyIn(old(Abs()).list, r.level))
    {
      if Clears(r.level) && r.code == "" {
        res := AddUncoded(r.level);
      } else {
        res := AddCoded(r);
      }
    }

    method BecomeNormal()
      requires Valid()
      modifies Repr
      ensures Valid() && fresh(Repr - old(Repr))
      ensures Abs() == Add(old(Abs()), NormalReport("")).(changed := true)
    {
      var _ := AddUncoded(Normal);
      ghost var added := Values(Live);
      mChanged := true;
      assert Values(Live) == added;
    }

    method Remove(code: string)
      requires Valid()
      modifies Repr
      ensures Valid() && fresh(Repr - old(Repr))
      ensures Abs() == ConditionSpec.Remove(old(Abs()), code)
    {
      var i := FindCode(code);
      if i < mActiveCount {
        if mActiveCount == 1 {
          BecomeNormal();
        } else {
          ClearAt(i, NormalReport(code));
        }
      }
    }

    /** Opens a scan: unless the condition is simple, every entry must be asserted again. */
    method Begin()
      requires Valid()
      modifies this`mChanged, this`mBegun, this`mPrepared, Live
      ensures Valid() && Abs() == ConditionSpec.Begin(old(Abs()))
    {
      if !mSimple {
        ghost var was := Values(Live);
        var i := 0;
        while i < mActiveCount
          invariant 0 <= i <= mActiveCount
          invariant Spliced(Values(Live), Unmark(was), was, i)
        {
          SpliceUp(Values(Live), Unmark(was), was, i);
          UnmarkOne(i);
          i := i + 1;
        }
      }
      mPrepared := false;
      mBegun := true;
      mChanged := false;
    }

    method UnmarkOne(i: nat)
      requires Valid() && i < |Live|
      modifies Live[i]
      ensures Values(Live) == old(Values(Live))[i := old(Values(Live))[i].(marked := false)]
    {
      mActiveList[i].mMarked := false;
    }

    /** Sweeps: what was not asserted again becomes NORMAL; an empty scan becomes a lone NORMAL. */
    method Prepare()
      requires Valid()
      modifies Repr
      ensures Valid() && fresh(Repr - old(Repr))
      ensures Abs() == ConditionSpec.Prepare(old(Abs()))
    {
      if mBegun {
        var marked := AnyKept();
        if !marked {
          var _ := AddUncoded(Normal);
        }
        SweepAll();
      }
    }

    method AnyKept() returns (marked: bool)
      requires Valid()
      ensures marked == !AllStale(Values(Live))
    {
      marked := false;
      var i := 0;
      while !marked && i < mActiveCount
        invariant i <= mActiveCount
        invariant !marked ==> forall k | 0 <= k < i :: Stale(Live[k].Value())
        invariant marked ==> exists k :: 0 <= k < |Live| && !Stale(Values(Live)[k])
      {
        if mActiveList[i].mPlaceHolder || mActiveList[i].mMarked {
          assert !Stale(Values(Live)[i]);
          marked := true;
        }
        i := i + 1;
      }
    }

    method SweepAll()
      requires Valid()
      modifies this`mChanged, this`mPrepared, Live
      ensures Valid()
      ensures Abs() == old(Abs()).(list := Sweep(old(Values(Live))), prepared := true,
                                   changed := old(mChanged) || AnyChanged(Sweep(old(Values(Live)))))
    {
      ghost var was := Values(Live);
      var i := mActiveCount;
      while i > 0
        invariant 0 <= i <= mActiveCount
        invariant Spliced(Values(Live), was, Sweep(was), i)
        invariant mChanged == (old(mChanged) || ChangedFrom(Sweep(was), i))
      {
        i := i - 1;
        SpliceDown(Values(Live), was, Sweep(was), i);
        SweepOne(i);
      }
      mPrepared := true;
    }

    method SweepOne(i: nat)
      requires Valid() && i < |Live|
      modifies this`mChanged, Live[i]
      ensures Values(Live) == old(Values(Live))[i := SweepEntry(old(Values(Live))[i])]
      ensures mChanged == (old(mChanged) || Values(Live)[i].changed)
    {
      var cond := mActiveList[i];
      if !cond.mPlaceHolder && !cond.mMarked {
        var _ := cond.SetValue(NormalReport(cond.mNativeCode));
      }
      if cond.mChanged {
        mChanged := true;
      }
    }

    /** Writes the condition's lines; during a prepared scan it also drops what has been cleared. */
    method Append() returns (lines: seq<Report>, changed: bool)
      requires Valid()
      modifies Repr
      ensures Valid() && fresh(Repr - old(Repr))
      ensures Abs() == ConditionSpec.Append(old(Abs()))
      ensures lines == AppendLines(old(Abs()))
      ensures changed == mChanged
    {
      lines := [];
      if !mBegun {
        lines := WriteAll();
      } else if mBegun && mPrepared {
        lines := WriteChanged();
      }
      changed := mChanged;
    }

    method WriteAll() returns (lines: seq<Report>)
      requires Valid()
      modifies Live
      ensures Valid() && Abs() == old(Abs()).(list := Printed(old(Values(Live))))
      ensures lines == AllLines(old(Values(Live)))
    {
      ghost var was := Values(Live);
      lines := [];
      var i := 0;
      while i < mActiveCount
        invariant 0 <= i <= mActiveCount
        invariant lines == AllLines(was)[..i]
        invariant Spliced(Values(Live), Printed(was), was, i)
      {
        SpliceUp(Values(Live), Printed(was), was, i);
        var line := PrintOne(i);
        lines := lines + [line];
        i := i + 1;
      }
    }

    method PrintOne(i: nat) returns (line: Report)
      requires Valid() && i < |Live|
      modifies Live[i]
      ensures line == old(Values(Live))[i].value
      ensures Values(Live) == old(Values(Live))[i := old(Values(Live))[i].(changed := false)]
    {
      line := mActiveList[i].ToLine();
    }

    method WriteChanged() returns (lines: seq<Report>)
      requires Valid()
      modifies this`mActiveCount, this`Live, mActiveList, Live
      ensures Valid() && Abs() == old(Abs()).(list := Written(old(Values(Live))))
      ensures lines == ChangedLines(old(Values(Live)))
    {
      ghost var was := Values(Live);
      lines := [];
      var i := mActiveCount;
      while i > 0
        invariant Valid() && 0 <= i <= |was|
        invariant forall k | 0 <= k < |Live| :: Live[k] in old(Live)
        invariant Values(Live) == was[..i] + Written(was[i..])
        invariant lines == ChangedLines(was[i..])
      {
        i := i - 1;
        WrittenStep(was, i);
        var line := WriteOne(i);
        lines := lines + line;
      }
    }

    /** Writes entry i if it has changed, then drops it if it is stale. */
    method WriteOne(i: nat) returns (line: seq<Report>)
      requires Valid() && i < |Live|
      modifies this`mActiveCount, this`Live, mActiveList, Live[i]
      ensures Valid() && (forall k | 0 <= k < |Live| :: Live[k] in old(Live))
      ensures line == if old(Values(Live))[i].changed then [old(Values(Live))[i].value] else []
      ensures Values(Live) == WriteAt(old(Values(Live)), i)
    {
      line := PrintIfChanged(i);
      if !mActiveList[i].mPlaceHolder && !mActiveList[i].mMarked {
        var _ := RemoveAt(i);
      }
    }

    method PrintIfChanged(i: nat) returns (line: seq<Report>)
      requires Valid() && i < |Live|
      modifies Live[i]
      ensures Valid()
      ensures line == if old(Values(Live))[i].changed then [old(Values(Live))[i].value] else []
      ensures Values(Live) == old(Values(Live))[i := old(Values(Live))[i].(changed := false)]
    {
      line := [];
      if mActiveList[i].mChanged {
        var l := PrintOne(i);
        line := [l];
      }
    }

    method Cleanup()
      requires Valid()
      modifies this`mBegun, this`mPrepared
      ensures Valid() && Abs() == ConditionSpec.Cleanup(old(Abs()))
    {
      mBegun := false;
      mPrepared := false;
    }
  }

  /** The first n elements are those of a, the others those of b. */
  predicate Spliced<T(==)>(s: seq<T>, a: seq<T>, b: seq<T>, n: int) {
    |s| == |a| == |b| && 0 <= n <= |s| && forall k | 0 <= k < |s| :: s[k] == if k < n then a[k] else b[k]
  }

  lemma SpliceUp<T>(s: seq<T>, a: seq<T>, b: seq<T>, n: nat)
    requires Spliced(s, a, b, n) && n < |s|
    ensures s[n] == b[n] && Spliced(s[n := a[n]], a, b, n + 1)
  {
  }

  lemma SpliceDown<T>(s: seq<T>, a: seq<T>, b: seq<T>, n: nat)
    requires Spliced(s, a, b, n + 1) && n < |s|
    ensures s[n] == a[n] && Spliced(s[n := b[n]], a, b, n)
  {
  }

  predicate ChangedFrom(l: seq<Entry>, n: nat) {
    exists k | n <= k < |l| :: l[k].changed
  }

  /** The list after entry i has been written and, if stale, removed. */
  function WriteAt(l: seq<Entry>, i: nat): seq<Entry>
    requires i < |l|
  {
    if Stale(l[i]) then l[..i] + l[i + 1..] else l[i := l[i].(changed := false)]
  }

  lemma WriteAtPrefix(l: seq<Entry>, i: nat, w: seq<Entry>)
    requires i < |l|
    ensures WriteAt(l[..i + 1] + w, i) == l[..i] + ((if Stale(l[i]) then [] else [l[i].(changed := false)]) + w)
  {
  }

  lemma WrittenStep(l: seq<Entry>, i: nat)
    requires i < |l|
    ensures WriteAt(l[..i + 1] + Written(l[i + 1..]), i) == l[..i] + Written(l[i..])
    ensures ChangedLines(l[i..]) == ChangedLines(l[i + 1..]) + (if l[i].changed then [l[i].value] else [])
  {
    assert l[i..][1..] == l[i + 1..];
    WriteAtPrefix(l, i, Written(l[i + 1..]));
    hide WriteAt, Stale;
  }
}

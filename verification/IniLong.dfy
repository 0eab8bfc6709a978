/**
 * Numbers in INI files: written digit by digit and reversed in place, read back as decimal numbers.
 */
module IniLong {
  import opened IniSpec
  import opened IniLines
  import opened IniText
  import M = MinIni
  import W = MinIniPuts

  const LONG_MAX := 0x7FFF_FFFF_FFFF_FFFF
  const LONG_MIN := -0x8000_0000_0000_0000

  type long = v: int | LONG_MIN <= v <= LONG_MAX

  /** Division of C: towards zero, and the remainder has the sign of the dividend. */
  function Quotient(v: int): int {
    if v >= 0 then v / 10 else -(-v / 10)
  }

  function Remainder(v: int): int {
    v - 10 * Quotient(v)
  }

  function Magnitude(v: int): nat {
    if v < 0 then -v else v
  }

  function Digit(n: nat): char
    requires n < 10
  {
    '0' + n as char
  }

  function Digits(n: nat): string {
    if n < 10 then [Digit(n)] else Digits(n / 10) + [Digit(n % 10)]
  }

  function Decimal(v: int): string {
    if v < 0 then "-" + Digits(-v) else Digits(v)
  }

  // ---- Writing -------------------------------------------------------------------------------------

  function Reversed(s: string): (r: string)
    ensures |r| == |s|
  {
    seq(|s|, i requires 0 <= i < |s| => s[|s| - 1 - i])
  }

  /** The digits as they are produced, the lowest first. */
  function Backward(n: nat): string {
    [Digit(n % 10)] + if n < 10 then "" else Backward(n / 10)
  }

  lemma {:induction false} BackwardReversed(n: nat)
    ensures Reversed(Backward(n)) == Digits(n)
  {
    if n >= 10 {
      BackwardReversed(n / 10);
      var b := Backward(n / 10);
      assert Reversed([Digit(n % 10)] + b) == Reversed(b) + [Digit(n % 10)];
    }
  }

  lemma {:induction false} BackwardLength(n: nat, k: nat)
    requires n < Pow10(k) && k > 0
    ensures |Backward(n)| <= k
  {
    if n >= 10 {
      BackwardLength(n / 10, k - 1);
    }
  }

  function Pow10(k: nat): nat {
    if k == 0 then 1 else 10 * Pow10(k - 1)
  }

  lemma LongLength(v: long)
    ensures |Backward(Magnitude(v))| <= 19
  {
    assert Pow10(6) == 1000000;
    assert Pow10(12) == 1000000000000;
    assert Pow10(18) == 1000000000000000000;
    assert Pow10(19) == 10 * Pow10(18);
    BackwardLength(Magnitude(v), 19);
  }

  lemma DigitStep(v: int)
    ensures Magnitude(Remainder(v)) == Magnitude(v) % 10 && Magnitude(Quotient(v)) == Magnitude(v) / 10
  {
  }

  lemma {:induction false} NoEnd(n: nat)
    ensures '\0' !in Backward(n)
  {
    if n >= 10 {
      NoEnd(n / 10);
    }
  }

  method Strlen(str: array<char>) returns (n: nat)
    requires '\0' in str[..]
    ensures n < str.Length && str[n] == '\0' && '\0' !in str[..n]
  {
    n := 0;
    var k :| 0 <= k < str.Length && str[k] == '\0';
    while str[n] != '\0'
      invariant n <= k && '\0' !in str[..n]
      decreases k - n
    {
      n := n + 1;
    }
  }

  /** The ends of the first n characters are swapped, up to i from the left and down to j from the right. */
  ghost predicate Swapped(now: string, was: string, n: nat, i: int, j: int) {
    && |now| == |was| >= n && 0 <= i <= j + 1 && i + j == n - 1
    && (forall k | 0 <= k < i :: now[k] == was[n - 1 - k])
    && (forall k | j < k < n :: now[k] == was[n - 1 - k])
    && (forall k | i <= k <= j || n <= k < |was| :: now[k] == was[k])
  }

  lemma SwappedNext(now: string, was: string, n: nat, i: int, j: int)
    requires Swapped(now, was, n, i, j) && i < j
    ensures j < |now| && Swapped(now[i := now[j]][j := now[i]], was, n, i + 1, j - 1)
  {
  }

  lemma SwappedAll(now: string, was: string, n: nat, i: int, j: int)
    requires Swapped(now, was, n, i, j) && i >= j
    ensures n <= |was| == |now| && now[..n] == Reversed(was[..n]) && now[n..] == was[n..]
  {
  }

  /** Swaps the characters from both ends, in place. */
  method StrReverse(str: array<char>, ghost len: nat)
    requires len < str.Length && str[len] == '\0' && '\0' !in str[..len]
    modifies str
    ensures str[..len] == Reversed(old(str[..len])) && str[len..] == old(str[len..])
  {
    ghost var s := str[..];
    assert s[..len] == str[..len] && s[len..] == str[len..];
    var n := Strlen(str);
    EndsAt(s, len, n);
    var i, j := 0, n as int - 1;
    assert Swapped(s, s, n, i, j);
    hide *;
    while i < j
      invariant 0 <= i && j < str.Length && Swapped(str[..], s, n, i, j)
    {
      SwappedNext(str[..], s, n, i, j);
      Swap(str, i, j);
      i, j := i + 1, j - 1;
    }
    SwappedAll(str[..], s, n, i, j);
    assert str[..][..len] == str[..len] && str[..][len..] == str[len..];
  }

  method Swap(str: array<char>, i: nat, j: nat)
    requires i < j < str.Length
    modifies str
    ensures str[..] == old(str[..])[i := old(str[j])][j := old(str[i])]
  {
    var t := str[i];
    str[i] := str[j];
    str[j] := t;
  }

  lemma EndsAt(s: string, m: nat, n: nat)
    requires m < |s| && s[m] == '\0' && '\0' !in s[..m]
    requires n < |s| && s[n] == '\0' && '\0' !in s[..n]
    ensures m == n
  {
    assert forall k | 0 <= k < n :: s[..n][k] == s[k] && s[..n][k] in s[..n];
    assert forall k | 0 <= k < m :: s[..m][k] == s[k] && s[..m][k] in s[..m];
  }

  /** The digits of a number, the lowest first; rest is what is still to be produced. */
  ghost predicate Producing(all: string, done: string, value: int, more: bool) {
    all == done + if more then Backward(Magnitude(value)) else ""
  }

  lemma ProducingNext(all: string, done: string, value: int)
    requires Producing(all, done, value, true)
    ensures |done| < |all|
    ensures var c := Digit(Magnitude(value) % 10);
      && Magnitude(Remainder(value)) == Magnitude(value) % 10
      && Producing(all, done + [c], Quotient(value), Quotient(value) != 0)
    ensures value != 0 ==> Magnitude(Quotient(value)) < Magnitude(value)
  {
    DigitStep(value);
    BackwardStep(Magnitude(value));
    var rest := Backward(Magnitude(value));
    assert rest == [rest[0]] + rest[1..];
    assert done + rest == (done + [rest[0]]) + rest[1..];
    hide Quotient, Remainder, Digit, Backward;
  }

  lemma ProducingStarts(value: int)
    ensures Producing(Backward(Magnitude(value)), "", value, true)
  {
    assert "" + Backward(Magnitude(value)) == Backward(Magnitude(value));
  }

  lemma ProducingEnds(all: string, done: string, value: int)
    requires Producing(all, done, value, false)
    ensures all == done
  {
    assert done + "" == done;
  }

  lemma ProducingBounds(all: string, done: string, value: int, more: bool)
    requires Producing(all, done, value, more)
    ensures |done| <= |all|
  {
  }

  method PutDigits(v: long, str: array<char>) returns (i: nat)
    requires str.Length == 32
    modifies str
    ensures i <= 19 && str[..i] == Backward(Magnitude(v))
  {
    var value: int, more := v, true;
    i := 0;
    ghost var all, done := Backward(Magnitude(v)), "";
    LongLength(v);
    ProducingStarts(v);
    hide *;
    while more
      invariant i == |done| <= str.Length && str[..i] == done && Producing(all, done, value, more)
      decreases Magnitude(value), more
    {
      ProducingNext(all, done, value);
      MagnitudeSmall(value);
      var n := Remainder(value);
      done := done + [Digit(Magnitude(n))];
      PutChar(str, i, Digit(Magnitude(n)));
      i := i + 1;
      value := Quotient(value);
      more := value != 0;
      ProducingBounds(all, done, value, more);
    }
    ProducingEnds(all, done, value);
  }

  lemma MagnitudeSmall(value: int)
    ensures Magnitude(Remainder(value)) < 10 && Magnitude(Quotient(value)) <= Magnitude(value)
    ensures Quotient(value) != 0 ==> Magnitude(Quotient(value)) < Magnitude(value)
  {
  }

  method PutChar(str: array<char>, i: nat, c: char)
    requires i < str.Length
    modifies str
    ensures str[i] == c && str[..i] == old(str[..i]) && str[..i + 1] == old(str[..i]) + [c]
  {
    str[i] := c;
  }

  /** Digits are produced lowest first, then the sign, and the string is reversed. */
  method Long2Str(v: long, str: array<char>) returns (ghost len: nat)
    requires str.Length == 32
    modifies str
    ensures len < 32 && str[len] == '\0' && '\0' !in str[..len] && str[..len] == Decimal(v)
  {
    Turned(v);
    hide *;
    var i := PutDigits(v, str);
    if v < 0 {
      PutChar(str, i, '-');
      i := i + 1;
    }
    PutChar(str, i, '\0');
    len := i;
    StrReverse(str, len);
  }

  /** The digits and the sign, turned round. */
  lemma Turned(v: int)
    ensures var back := Backward(Magnitude(v)) + (if v < 0 then "-" else "");
      '\0' !in back && Reversed(back) == Decimal(v) && '\0' !in Reversed(back)
    ensures Backward(Magnitude(v)) + "" == Backward(Magnitude(v))
  {
    var all := Backward(Magnitude(v));
    assert all + "" == all;
    NoEnd(Magnitude(v));
    BackwardReversed(Magnitude(v));
    ReversedSign(all);
    NoEndReversed(all + if v < 0 then "-" else "");
    hide Backward, Digits, Reversed;
  }

  lemma BackwardStep(n: nat)
    ensures Backward(n)[0] == Digit(n % 10)
    ensures Backward(n)[1..] == if n / 10 == 0 then "" else Backward(n / 10)
    ensures n / 10 < n || n == 0
  {
  }

  lemma ReversedSign(s: string)
    ensures Reversed(s + "-") == "-" + Reversed(s)
  {
  }

  lemma NoEndReversed(s: string)
    requires '\0' !in s
    ensures '\0' !in Reversed(s)
  {
  }

  // ---- Reading -------------------------------------------------------------------------------------

  predicate IsDigit(c: char) {
    '0' <= c <= '9'
  }

  predicate Space(c: char) {
    c == ' ' || '\t' <= c <= '\r'
  }

  function SkipSpace(s: string): string {
    if s != "" && Space(s[0]) then SkipSpace(s[1..]) else s
  }

  /** The leading digits as a number. */
  function Number(s: string, n: nat): nat {
    if s == "" || !IsDigit(s[0]) then n else Number(s[1..], 10 * n + (s[0] - '0') as nat)
  }

  /** strtol with base 10. */
  function Strtol(s: string): long {
    var t := SkipSpace(s);
    var negative := t != "" && t[0] == '-';
    var n: int := Number(if t != "" && (t[0] == '-' || t[0] == '+') then t[1..] else t, 0);
    if negative then (if -n < LONG_MIN then LONG_MIN else -n) else if n > LONG_MAX then LONG_MAX else n
  }

  lemma {:induction false} NumberSnoc(s: string, c: char, n: nat)
    requires IsDigit(c) && forall i | 0 <= i < |s| :: IsDigit(s[i])
    ensures Number(s + [c], n) == 10 * Number(s, n) + (c - '0') as nat
    decreases |s|
  {
    if s == "" {
      assert s + [c] == [c] && [c][1..] == "";
    } else {
      assert (s + [c])[1..] == s[1..] + [c];
      NumberSnoc(s[1..], c, 10 * n + (s[0] - '0') as nat);
    }
  }

  lemma {:induction false} DigitsRead(n: nat)
    ensures Digits(n) != "" && (forall i | 0 <= i < |Digits(n)| :: IsDigit(Digits(n)[i])) && Number(Digits(n), 0) == n
  {
    if n >= 10 {
      DigitsRead(n / 10);
      NumberSnoc(Digits(n / 10), Digit(n % 10), 0);
    } else {
      assert [Digit(n)][1..] == "";
    }
  }

  /** Writing a number and reading it back gives the number, the smallest one included. */
  lemma DecimalRead(v: long)
    ensures Strtol(Decimal(v)) == v && GoodValue(Decimal(v)) && 0 < |Decimal(v)| <= 20
  {
    var m := Magnitude(v);
    var d := Digits(m);
    DigitsRead(m);
    LongLength(v);
    BackwardReversed(m);
    hide Digits, Number, Backward;
    assert IsDigit(d[0]) && IsDigit(d[|d| - 1]);
    var s := Decimal(v);
    assert v < 0 ==> s[1..] == d;
    assert SkipSpace(s) == s;
  }

  predicate AllDigits(s: string) {
    forall i | 0 <= i < |s| :: '0' <= s[i] <= '9'
  }

  /** The number that digits stand for: ten times what is in front of the last, and the last. */
  function Places(s: string): nat
    requires AllDigits(s)
  {
    if s == "" then 0 else 10 * Places(s[..|s| - 1]) + (s[|s| - 1] as int - 48)
  }

  lemma PlacesNext(done: string, c: char)
    requires AllDigits(done) && '0' <= c <= '9'
    ensures AllDigits(done + [c]) && Places(done + [c]) == 10 * Places(done) + (c as int - 48)
  {
    assert (done + [c])[..|done|] == done;
  }

  lemma NumberNext(s: string, rest: string, n: nat)
    ensures s == "" && (rest == "" || !('0' <= rest[0] <= '9')) ==> Number(s + rest, n) == n
    ensures s != "" && '0' <= s[0] <= '9' ==> Number(s + rest, n) == Number(s[1..] + rest, 10 * n + (s[0] as int - 48))
  {
    assert s == "" ==> s + rest == rest;
    assert s != "" ==> (s + rest)[1..] == s[1..] + rest && (s + rest)[0] == s[0];
  }

  lemma {:induction false} PlacesFrom(s: string, rest: string, n: nat, done: string)
    requires AllDigits(s) && AllDigits(done) && n == Places(done) && (rest == "" || !('0' <= rest[0] <= '9'))
    ensures AllDigits(done + s) && Number(s + rest, n) == Places(done + s)
    decreases |s|
  {
    hide Number, Places;
    NumberNext(s, rest, n);
    if s == "" {
      assert done + s == done;
    } else {
      PlacesNext(done, s[0]);
      PlacesFrom(s[1..], rest, 10 * n + (s[0] as int - 48), done + [s[0]]);
      assert done + [s[0]] + s[1..] == done + s;
    }
  }

  /** The white space of C. */
  predicate WhiteSpace(w: string) {
    forall i | 0 <= i < |w| :: w[i] as int == 32 || 9 <= w[i] as int <= 13
  }

  lemma {:induction false} SkipWhiteSpace(w: string, s: string)
    requires WhiteSpace(w) && (s != "" ==> s[0] as int > 32)
    ensures SkipSpace(w + s) == s
  {
    if w == "" {
      assert w + s == s;
    } else {
      assert (w + s)[1..] == w[1..] + s;
      SkipWhiteSpace(w[1..], s);
    }
  }

  /** White space, a sign, digits and anything else are read as the number the digits stand for, cut to a long. */
  lemma StrtolReads(w: string, sign: string, d: string, rest: string)
    requires WhiteSpace(w) && sign in ["", "+", "-"] && AllDigits(d) && d != ""
    requires rest == "" || !('0' <= rest[0] <= '9')
    ensures var n: int := if sign == "-" then -(Places(d) as int) else Places(d);
      Strtol(w + sign + d + rest)
      == if n < -9223372036854775808 then -9223372036854775808
         else if n > 9223372036854775807 then 9223372036854775807 else n
  {
    PlacesFrom(d, rest, 0, "");
    StrtolParts(w, sign, d, rest);
    hide *;
    SkipWhiteSpace(w, sign + (d + rest));
    StrtolSigned(sign, d + rest);
    StrtolOf(w + sign + d + rest, sign + (d + rest), Places(d));
  }

  lemma StrtolParts(w: string, sign: string, d: string, rest: string)
    requires sign in ["", "+", "-"] && AllDigits(d) && d != ""
    ensures "" + d == d && Places("") == 0 && w + sign + d + rest == w + (sign + (d + rest))
    ensures var t := sign + (d + rest); t[0] as int > 32 && (d + rest)[0] == d[0] && '0' <= d[0] <= '9'
  {
    assert w + sign + d + rest == w + (sign + (d + rest));
    assert "" + d == d;
  }

  lemma StrtolOf(s: string, t: string, n: nat)
    requires SkipSpace(s) == t && t != "" && Number(if t[0] == '-' || t[0] == '+' then t[1..] else t, 0) == n
    ensures var m: int := if t[0] == '-' then -(n as int) else n;
      Strtol(s)
      == if m < -9223372036854775808 then -9223372036854775808
         else if m > 9223372036854775807 then 9223372036854775807 else m
  {
    hide SkipSpace, Number;
  }

  lemma StrtolSigned(sign: string, t: string)
    requires sign in ["", "+", "-"] && t != "" && '0' <= t[0] <= '9'
    ensures var s := sign + t;
      (if s[0] == '-' || s[0] == '+' then s[1..] else s) == t && (s[0] == '-' <==> sign == "-")
  {
  }

  /** Without digits the number is 0. */
  lemma StrtolNothing(w: string, t: string)
    requires WhiteSpace(w) && (t != "" ==> t[0] as int > 32 && t[0] !in "+-" && !('0' <= t[0] <= '9'))
    ensures Strtol(w + t) == 0
  {
    SkipWhiteSpace(w, t);
    hide SkipSpace;
  }

  /** A number is written with as few digits as stand for it, the sign in front. */
  lemma DecimalIs(v: int)
    ensures var d := if v < 0 then Decimal(v)[1..] else Decimal(v);
      && d != "" && AllDigits(d) && Places(d) == (if v < 0 then -v else v) && (d[0] == '0' ==> v == 0 && |d| == 1)
      && (v < 0 ==> Decimal(v)[0] == '-')
  {
    DigitsStand(Magnitude(v));
    hide Digits, Places;
    assert v < 0 ==> Decimal(v)[1..] == Digits(-v);
  }

  lemma {:induction false} DigitsStand(n: nat)
    ensures var d := Digits(n); d != "" && AllDigits(d) && Places(d) == n && (d[0] == '0' ==> n == 0 && |d| == 1)
  {
    if n >= 10 {
      DigitsStand(n / 10);
      var d := Digits(n);
      assert d[..|d| - 1] == Digits(n / 10);
    } else {
      assert [Digit(n)][..0] == "";
    }
  }

  /** The number a lookup gives. */
  function GetlOf(f: File, section: string, key: string, defValue: long): long {
    match Gets(f, section, key)
    case None => defValue
    case Some(x) => if Clip(x, 63) == "" then defValue else Strtol(Clip(x, 63))
  }

  /** The default, if there is no file, no entry or no value; else the number in the first 63 characters. */
  method Getl(file: M.IniFile, section: string, key: string, defValue: long) returns (v: long)
    ensures v == GetlOf(file.Abs(), section, key, defValue)
    ensures !file.present ==> v == defValue
    ensures Gets(file.Abs(), section, key) in [None, Some("")] ==> v == defValue
    ensures Gets(file.Abs(), section, key) !in [None, Some("")] ==>
              var x := Gets(file.Abs(), section, key).value; v == Strtol(if |x| <= 63 then x else x[..63])
  {
    hide Content, Lookup, Strtol;
    var buff := M.Gets(file, section, key, "", 64);
    v := if |buff| == 0 then defValue else Strtol(buff);
  }

  /** A number of at most 20 characters is put as its decimal text. */
  method Putl(file: M.IniFile, section: string, key: string, v: long) returns (r: int)
    requires file.Valid()
    modifies file
    ensures r == 1 && file.Abs() == Puts(old(file.Abs()), section, Some(key), Some(Decimal(v)))
    ensures |key| <= INI_BUFFERSIZE - 23 ==> file.Valid()
  {
    var str := new char[32];
    ghost var len := Long2Str(v, str);
    var n := Strlen(str);
    EndsAt(str[..], len, n);
    DecimalRead(v);
    if |key| <= INI_BUFFERSIZE - 23 { W.FittingSettles(key, Decimal(v)); }
    hide Content, Lookup, Edit, Decimal, Steady, W.Settles;
    r := W.Puts(file, section, Some(key), Some(str[..n]));
  }

  /**
   * A number put is the number got, for every long, exactly if the entry has no blank before its separator or gave
   * this number already.
   */
  lemma PutlGetlExactly(lines: seq<string>, s: string, k: string, v: long, defValue: long)
    requires GoodSection(s) && GoodKey(k) && |k| + 20 <= INI_BUFFERSIZE - 4
    ensures GetlOf(Puts(Some(lines), s, Some(k), Some(Decimal(v))), s, k, defValue) == v
            <==> Editable(lines, s, k) || GetlOf(Some(lines), s, k, defValue) == v
  {
    DecimalRead(v);
    PutGives(lines, s, k, Decimal(v));
    hide Lookup, Edit, Editable, Decimal, Strtol;
  }

  lemma PutlGetlNew(s: string, k: string, v: long, defValue: long)
    requires GoodSection(s) && GoodKey(k) && |k| + 20 <= INI_BUFFERSIZE - 4
    ensures GetlOf(Puts(None, s, Some(k), Some(Decimal(v))), s, k, defValue) == v
  {
    DecimalRead(v);
    PutGetNew(s, k, Decimal(v));
    hide Lookup, Edit, Decimal, Strtol, Puts;
  }
}

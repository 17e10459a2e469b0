/** The string operations the answers rely on: Python's `str()` of an integer,
    `str.strip()` with no argument, and `sorted()` of a list of strings. */
module Text {
  import opened Seqs

  predicate IsDigit(c: char) {
    '0' <= c <= '9'
  }

  /** The characters Python's `str.isspace` accepts, which `str.strip()` removes. */
  predicate IsSpace(c: char) {
    || c == ' ' || ('\t' <= c <= '\r')
    || ('\U{1c}' <= c <= '\U{1f}') || c == '\U{85}' || c == '\U{a0}'
    || c == '\U{1680}' || ('\U{2000}' <= c <= '\U{200a}')
    || c == '\U{2028}' || c == '\U{2029}' || c == '\U{202f}' || c == '\U{205f}' || c == '\U{3000}'
  }

  predicate AllSpace(s: string) {
    forall i :: 0 <= i < |s| ==> IsSpace(s[i])
  }

  /** Neither end of `s` is whitespace. */
  predicate Trimmed(s: string) {
    s == [] || (!IsSpace(s[0]) && !IsSpace(s[|s| - 1]))
  }

  function DigitChar(d: int): (c: char)
    requires 0 <= d < 10
    ensures IsDigit(c) && c as int - '0' as int == d
  {
    ('0' as int + d) as char
  }

  /** `str(n)` for n >= 0: the decimal digits of n, without leading zeros. */
  function Decimal(n: nat): (r: string)
    ensures |r| >= 1
    ensures forall i :: 0 <= i < |r| ==> IsDigit(r[i])
    ensures |r| > 1 ==> r[0] != '0'
    decreases n
  {
    if n < 10 then [DigitChar(n)] else Decimal(n / 10) + [DigitChar(n % 10)]
  }

  /** The number a string of decimal digits denotes (reference reading of a numeral). */
  function Value(s: string): nat
    requires forall i :: 0 <= i < |s| ==> IsDigit(s[i])
  {
    if s == [] then 0
    else
      var last := s[|s| - 1];
      assert IsDigit(last);
      Value(s[..|s| - 1]) * 10 + (last as int - '0' as int)
  }

  /** Reading back the decimal form of n gives n. */
  lemma {:induction false} ValueOfDecimal(n: nat)
    ensures Value(Decimal(n)) == n
  {
    if n >= 10 {
      var r := Decimal(n);
      assert r == Decimal(n / 10) + [DigitChar(n % 10)];
      assert r[..|r| - 1] == Decimal(n / 10);
      ValueOfDecimal(n / 10);
    }
  }

  /** Different numbers have different decimal forms. */
  lemma DecimalInjective(m: nat, n: nat)
    ensures Decimal(m) == Decimal(n) <==> m == n
  {
    if Decimal(m) == Decimal(n) {
      ValueOfDecimal(m);
      ValueOfDecimal(n);
    }
  }

  /** A decimal numeral has no surrounding whitespace. */
  lemma DecimalTrimmed(n: nat)
    ensures Trimmed(Decimal(n))
  {
    var r := Decimal(n);
    assert IsDigit(r[0]) && IsDigit(r[|r| - 1]);
  }

  /** `str(n)` for any integer: a minus sign before the digits of a negative number. */
  function IntStr(n: int): (r: string)
    ensures |r| >= 1 && Trimmed(r)
  {
    if n < 0 then
      NegativeTrimmed(-n);
      "-" + Decimal(-n)
    else
      DecimalTrimmed(n);
      Decimal(n)
  }

  /** A minus sign followed by digits has no surrounding whitespace. */
  lemma NegativeTrimmed(n: nat)
    ensures Trimmed("-" + Decimal(n))
  {
    var r := "-" + Decimal(n);
    assert r[|r| - 1] == Decimal(n)[|Decimal(n)| - 1];
    assert IsDigit(r[|r| - 1]);
  }

  /** `str` tells integers apart: equal texts come from equal numbers. */
  lemma IntStrInjective(m: int, n: int)
    ensures IntStr(m) == IntStr(n) <==> m == n
  {
    if IntStr(m) == IntStr(n) {
      if m < 0 && n < 0 {
        assert IntStr(m)[1..] == Decimal(-m) && IntStr(n)[1..] == Decimal(-n);
        DecimalInjective(-m, -n);
      } else if m >= 0 && n >= 0 {
        DecimalInjective(m, n);
      }
    }
  }

  /** `lstrip()`: drops leading whitespace. */
  function TrimStart(s: string): string {
    if s != [] && IsSpace(s[0]) then TrimStart(s[1..]) else s
  }

  /** What `lstrip()` leaves is a suffix that does not start with whitespace, and only
      whitespace was dropped. */
  lemma {:induction false} TrimStartSpec(s: string)
    ensures var r := TrimStart(s);
      && |r| <= |s| && r == s[|s| - |r|..]
      && AllSpace(s[..|s| - |r|])
      && (r == [] || !IsSpace(r[0]))
  {
    if s != [] && IsSpace(s[0]) {
      TrimStartSpec(s[1..]);
      var r := TrimStart(s[1..]);
      assert s[..|s| - |r|] == [s[0]] + s[1..][..|s[1..]| - |r|];
    }
  }

  /** `rstrip()`: drops trailing whitespace. */
  function TrimEnd(s: string): string {
    if s != [] && IsSpace(s[|s| - 1]) then TrimEnd(s[..|s| - 1]) else s
  }

  /** What `rstrip()` leaves is a prefix that does not end with whitespace, and only
      whitespace was dropped. */
  lemma {:induction false} TrimEndSpec(s: string)
    ensures var r := TrimEnd(s);
      && |r| <= |s| && r == s[..|r|]
      && AllSpace(s[|r|..])
      && (r == [] || !IsSpace(r[|r| - 1]))
  {
    if s != [] && IsSpace(s[|s| - 1]) {
      TrimEndSpec(s[..|s| - 1]);
      var r := TrimEnd(s[..|s| - 1]);
      assert s[|r|..] == s[..|s| - 1][|r|..] + [s[|s| - 1]];
    }
  }

  /** `s` is `r` with only whitespace before (the first i characters) and after it. */
  predicate PaddedAt(s: string, i: int, r: string) {
    && 0 <= i <= |s| - |r|
    && s[i..i + |r|] == r
    && AllSpace(s[..i])
    && AllSpace(s[i + |r|..])
  }

  /** `strip()`: the text between the leading and the trailing whitespace. */
  function Strip(s: string): string {
    TrimEnd(TrimStart(s))
  }

  /** What `strip()` leaves is trimmed and sits in the input between whitespace only. */
  lemma StripSpec(s: string)
    ensures Trimmed(Strip(s))
    ensures exists i :: PaddedAt(s, i, Strip(s))
  {
    TrimStartSpec(s);
    TrimEndOfTrimmedStart(TrimStart(s));
    TrimBothPadded(s);
  }

  /** What `rstrip` leaves of a text that starts with no whitespace is trimmed. */
  lemma TrimEndOfTrimmedStart(t: string)
    requires t == [] || !IsSpace(t[0])
    ensures Trimmed(TrimEnd(t))
  {
    TrimEndSpec(t);
    var r := TrimEnd(t);
    assert r != [] ==> r[0] == t[0];
  }

  /** What `lstrip` and then `rstrip` leave lies between whitespace. */
  lemma TrimBothPadded(s: string)
    ensures PaddedAt(s, |s| - |TrimStart(s)|, TrimEnd(TrimStart(s)))
  {
    TrimStartSpec(s);
    TrimEndSpec(TrimStart(s));
    PaddedBetween(s, TrimStart(s), TrimEnd(TrimStart(s)));
  }

  /** r is a prefix of the suffix t of s, with whitespace before t and after r in t. */
  lemma PaddedBetween(s: string, t: string, r: string)
    requires |t| <= |s| && t == s[|s| - |t|..] && AllSpace(s[..|s| - |t|])
    requires |r| <= |t| && r == t[..|r|] && AllSpace(t[|r|..])
    ensures PaddedAt(s, |s| - |t|, r)
  {
    PrefixOfSuffix(s, |s| - |t|, t, r);
  }

  /** Slicing a prefix r of the suffix t of s, which starts at i. */
  lemma PrefixOfSuffix<T>(s: seq<T>, i: int, t: seq<T>, r: seq<T>)
    requires 0 <= i <= |s| && t == s[i..]
    requires |r| <= |t| && r == t[..|r|]
    ensures s[i..i + |r|] == r && s[i + |r|..] == t[|r|..]
  {
  }

  lemma {:induction false} TrimStartPadded(pre: string, t: string)
    requires AllSpace(pre)
    requires t == [] || !IsSpace(t[0])
    ensures TrimStart(pre + t) == t
  {
    if pre != [] {
      assert (pre + t)[1..] == pre[1..] + t;
      TrimStartPadded(pre[1..], t);
    } else {
      assert pre + t == t;
    }
  }

  lemma {:induction false} TrimEndPadded(t: string, post: string)
    requires AllSpace(post)
    requires t == [] || !IsSpace(t[|t| - 1])
    ensures TrimEnd(t + post) == t
  {
    if post != [] {
      assert (t + post)[..|t + post| - 1] == t + post[..|post| - 1];
      TrimEndPadded(t, post[..|post| - 1]);
    } else {
      assert t + post == t;
    }
  }

  /** Whitespace around a trimmed text is exactly what `strip()` removes. */
  lemma StripPadded(pre: string, t: string, post: string)
    requires AllSpace(pre) && AllSpace(post) && Trimmed(t)
    ensures Strip(pre + t + post) == t
  {
    assert pre + t + post == pre + (t + post);
    if t == [] {
      assert t + post == post;
      TrimStartPadded(pre + post, []);
      assert pre + post + [] == pre + post;
      assert AllSpace(pre + post) by {
        forall i | 0 <= i < |pre + post| ensures IsSpace((pre + post)[i]) {
          if i < |pre| { assert (pre + post)[i] == pre[i]; } else { assert (pre + post)[i] == post[i - |pre|]; }
        }
      }
      assert TrimStart(pre + t + post) == [];
    } else {
      assert (t + post)[0] == t[0];
      TrimStartPadded(pre, t + post);
      TrimEndPadded(t, post);
    }
  }

  /** Python's string order: code point by code point, a proper prefix first. */
  predicate LexLe(s: string, t: string) {
    |s| == 0 || (|t| > 0 && (s[0] < t[0] || (s[0] == t[0] && LexLe(s[1..], t[1..]))))
  }

  /** The order is total. */
  lemma {:induction false} LexTotal(s: string, t: string)
    ensures LexLe(s, t) || LexLe(t, s)
  {
    if |s| > 0 && |t| > 0 && s[0] == t[0] {
      LexTotal(s[1..], t[1..]);
    }
  }

  predicate Sorted(s: seq<string>) {
    forall i :: 0 < i < |s| ==> LexLe(s[i - 1], s[i])
  }

  /** x put in front of the first element of s that does not precede it. */
  function Insert(x: string, s: seq<string>): (r: seq<string>)
    requires Sorted(s)
    ensures Sorted(r)
    ensures multiset(r) == multiset(s) + multiset{x}
    ensures r[0] == x || (|s| > 0 && r[0] == s[0])
    decreases |s|, 1
  {
    if s == [] then [x]
    else if LexLe(x, s[0]) then
      [x] + s
    else
      InsertLater(x, s)
  }

  function InsertLater(x: string, s: seq<string>): (r: seq<string>)
    requires Sorted(s) && |s| > 0 && !LexLe(x, s[0])
    ensures Sorted(r)
    ensures multiset(r) == multiset(s) + multiset{x}
    ensures r[0] == s[0]
    decreases |s|, 0
  {
    var rest := Insert(x, s[1..]);
    LexTotal(x, s[0]);
    assert s == [s[0]] + s[1..];
    var r := [s[0]] + rest;
    assert forall i :: 0 < i < |r| ==> r[i] == rest[i - 1];
    r
  }

  /** Inserting a new element into a list without repetitions keeps it without repetitions. */
  lemma InsertDistinct(x: string, s: seq<string>)
    requires Sorted(s) && Distinct(s) && x !in s
    ensures Distinct(Insert(x, s))
  {
    var r := Insert(x, s);
    forall y ensures multiset(r)[y] <= 1 {
      DistinctCount(s, y);
    }
    CountDistinct(r);
  }

  /** `sorted(strings)`, as an insertion sort. */
  function SortStrings(s: seq<string>): (r: seq<string>)
    ensures Sorted(r)
    ensures multiset(r) == multiset(s)
    ensures |r| == |s|
    ensures forall y :: y in r <==> y in s
    ensures Distinct(s) ==> Distinct(r)
  {
    if s == [] then []
    else
      assert s == [s[0]] + s[1..];
      var rest := SortStrings(s[1..]);
      assert |Insert(s[0], rest)| == |multiset(Insert(s[0], rest))|;
      assert forall y :: y in Insert(s[0], rest) <==> y in multiset(Insert(s[0], rest));
      if Distinct(s) then
        assert Distinct(s[1..]) && s[0] !in multiset(rest);
        InsertDistinct(s[0], rest);
        Insert(s[0], rest)
      else
        Insert(s[0], rest)
  }

  /** `strip()` gives a trimmed text t exactly when the input is t with only whitespace around it. */
  lemma StripMatches(s: string, t: string)
    requires Trimmed(t)
    ensures Strip(s) == t <==> exists i :: PaddedAt(s, i, t)
  {
    StripSpec(s);
    forall i | PaddedAt(s, i, t) ensures Strip(s) == t {
      PaddedSplit(s, i, t);
      StripPadded(s[..i], t, s[i + |t|..]);
    }
  }

  lemma PaddedSplit(s: string, i: int, t: string)
    requires PaddedAt(s, i, t)
    ensures s == s[..i] + t + s[i + |t|..]
  {
    assert s == s[..i] + s[i..i + |t|] + s[i + |t|..];
  }

  /** `strip()` leaves a trimmed text alone. */
  lemma StripTrimmed(t: string)
    requires Trimmed(t)
    ensures Strip(t) == t
  {
    assert PaddedAt(t, 0, t);
    StripMatches(t, t);
  }
}

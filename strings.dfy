/** String helpers shared by the command models: the few pieces of
    JavaScript's string library the extension relies on. */
module Strings {

  /** Index of the last occurrence of `c` in `s`, or -1 (JavaScript's `lastIndexOf`). */
  function LastIndexOf(s: string, c: char): (r: int)
    ensures -1 <= r < |s|
    ensures r >= 0 ==> s[r] == c
    ensures forall j :: r < j < |s| ==> s[j] != c
    ensures r == -1 <==> c !in s
    decreases |s|
  {
    if s == [] then -1
    else if s[|s| - 1] == c then |s| - 1
    else LastIndexOf(s[..|s| - 1], c)
  }

  /** The text after the last `c`, or all of `s` when it holds no `c`:
      the last piece when `s` is split at `c`. */
  function AfterLast(s: string, c: char): (r: string)
    ensures c !in r
    ensures |r| <= |s| && r == s[|s| - |r|..]
    ensures |r| == |s| || s[|s| - |r| - 1] == c
  {
    var i := LastIndexOf(s, c);
    s[i + 1..]
  }

  /** When the last `c` sits at `k`, `AfterLast` is what follows it. */
  lemma AfterLastAt(s: string, c: char, k: int)
    requires 0 <= k < |s| && s[k] == c && c !in s[k + 1..]
    ensures AfterLast(s, c) == s[k + 1..]
  {
  }

  /** When `s` ends with `c` followed by a `c`-free tail, that tail is what
      follows the last `c`. */
  lemma AfterLastOfTail(s: string, c: char, k: int, tail: string)
    requires 0 <= k < |s| && s[k..] == [c] + tail && c !in tail
    ensures AfterLast(s, c) == tail
  {
    assert s[k + 1..] == tail;
    AfterLastAt(s, c, k);
  }

  /** Dropping a prefix that ends before the last `c` keeps what follows it. */
  lemma AfterLastOfSuffix(s: string, c: char, k: int)
    requires 0 <= k <= |s| && |AfterLast(s, c)| < |s| - k
    ensures AfterLast(s[k..], c) == AfterLast(s, c)
  {
    var p := |s| - |AfterLast(s, c)| - 1;
    assert s[k..][p - k + 1..] == AfterLast(s, c);
    AfterLastAt(s[k..], c, p - k);
  }

  /** When a mark `d` other than `c` sits just before `k` and does not
      occur after the last `c`, that last `c` lies at or after `k`. */
  lemma AfterLastPastMark(s: string, c: char, d: char, k: int)
    requires 0 < k <= |s| && s[k - 1] == d && d != c && d !in AfterLast(s, c)
    ensures AfterLast(s[k..], c) == AfterLast(s, c)
  {
    var e := AfterLast(s, c);
    assert forall j :: |s| - |e| <= j < |s| ==> s[j] == e[j - (|s| - |e|)];
    assert k - 1 < |s| - |e|;
    assert s[|s| - |e| - 1] == c;
    AfterLastOfSuffix(s, c, k);
  }

  predicate EndsWith(s: string, suffix: string)
  {
    |suffix| <= |s| && s[|s| - |suffix|..] == suffix
  }

  function LowerChar(c: char): (r: char)
  {
    if 'A' <= c <= 'Z' then (c as int - 'A' as int + 'a' as int) as char else c
  }

  /** `toLowerCase`, restricted to the ASCII letters. */
  function ToLower(s: string): (r: string)
    ensures |r| == |s|
    ensures forall i :: 0 <= i < |s| ==> r[i] == LowerChar(s[i])
  {
    if s == [] then [] else ToLower(s[..|s| - 1]) + [LowerChar(s[|s| - 1])]
  }

  /** Lower-casing a suffix is taking the suffix of the lower-cased text. */
  lemma ToLowerSuffix(s: string, k: int)
    requires 0 <= k <= |s|
    ensures ToLower(s[k..]) == ToLower(s)[k..]
  {
    var tail, lowered := ToLower(s[k..]), ToLower(s)[k..];
    forall i | 0 <= i < |tail| ensures tail[i] == lowered[i] {
      assert tail[i] == LowerChar(s[k + i]);
    }
    assert tail == lowered;
  }

  function DigitChar(d: nat): (r: char)
    requires d < 10
    ensures IsDigit(r) && DigitValue(r) == d
  {
    ('0' as int + d) as char
  }

  predicate IsDigit(c: char)
  {
    '0' <= c <= '9'
  }

  function DigitValue(c: char): (d: nat)
    requires IsDigit(c)
    ensures d < 10
  {
    c as int - '0' as int
  }

  predicate AllDigits(s: string)
  {
    forall i :: 0 <= i < |s| ==> IsDigit(s[i])
  }

  /** The number a string of decimal digits denotes. */
  function DecimalValue(s: string): (n: nat)
    requires AllDigits(s)
    decreases |s|
  {
    if s == [] then 0 else DecimalValue(s[..|s| - 1]) * 10 + DigitValue(s[|s| - 1])
  }

  /** The decimal rendering JavaScript gives a non-negative integer in a
      template literal: digits only, denoting `n`, without a leading zero. */
  function NatToString(n: nat): (r: string)
    ensures |r| >= 1 && AllDigits(r)
    ensures DecimalValue(r) == n
    ensures |r| == 1 || r[0] != '0'
    ensures n >= 10 ==> |r| >= 2
    decreases n
  {
    if n < 10 then [DigitChar(n)]
    else
      var prefix := NatToString(n / 10);
      var r := prefix + [DigitChar(n % 10)];
      assert r[..|r| - 1] == prefix;
      r
  }

  /** Distinct counts render differently. */
  lemma NatToStringInjective(a: nat, b: nat)
    requires NatToString(a) == NatToString(b)
    ensures a == b
  {
  }

  /** A run of digits followed by a non-digit splits a string in one way only. */
  lemma DigitPrefixUnique(d1: string, r1: string, d2: string, r2: string)
    requires AllDigits(d1) && AllDigits(d2)
    requires r1 != [] && r2 != [] && !IsDigit(r1[0]) && !IsDigit(r2[0])
    requires d1 + r1 == d2 + r2
    ensures d1 == d2 && r1 == r2
  {
    var u := d1 + r1;
    assert u == d2 + r2;
    assert u[|d1|] == r1[0];
    assert u[|d2|] == r2[0];
    assert forall k :: 0 <= k < |d1| ==> u[k] == d1[k];
    assert forall k :: 0 <= k < |d2| ==> u[k] == d2[k];
    assert |d1| == |d2|;
    assert d1 == u[..|d1|] && d2 == u[..|d2|];
    assert r1 == u[|d1|..] && r2 == u[|d2|..];
  }

  /** Two digit runs split by a non-digit separator and followed by the same
      text are read back unambiguously. */
  lemma DigitPairUnique(a1: string, b1: string, a2: string, b2: string, sep: char, tail: string)
    requires AllDigits(a1) && AllDigits(b1) && AllDigits(a2) && AllDigits(b2)
    requires !IsDigit(sep) && tail != [] && !IsDigit(tail[0])
    requires a1 + ([sep] + b1 + tail) == a2 + ([sep] + b2 + tail)
    ensures a1 == a2 && b1 == b2
  {
    DigitPrefixUnique(a1, [sep] + b1 + tail, a2, [sep] + b2 + tail);
    assert ([sep] + b1 + tail)[1..] == b1 + tail;
    assert ([sep] + b2 + tail)[1..] == b2 + tail;
    DigitPrefixUnique(b1, tail, b2, tail);
  }
}

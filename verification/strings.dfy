/**
 * The few pieces of Python's `str`/`int` behaviour the modelled code relies on:
 * `str(n)` for integers, `int(s)` for strings, `s.split(sep)` and `sep.join(xs)`.
 * Characters are compared as code points; no Unicode normalisation is modelled.
 */
module Strings {
  import opened Wrappers

  /** A decimal digit character '0'..'9'. */
  predicate IsDigit(c: char)
  {
    '0' <= c <= '9'
  }

  function DigitChar(d: nat): (c: char)
    requires d < 10
    ensures IsDigit(c)
  {
    (('0' as int) + d) as char
  }

  function DigitValue(c: char): (d: nat)
    requires IsDigit(c)
    ensures d < 10
  {
    (c as int) - ('0' as int)
  }

  predicate AllDigits(s: string)
  {
    forall i :: 0 <= i < |s| ==> IsDigit(s[i])
  }

  /** `str(n)` for a non-negative integer: its decimal digits, no leading zeros. */
  function NatToString(n: nat): (r: string)
    ensures 1 <= |r| && AllDigits(r)
    decreases n
  {
    if n < 10 then [DigitChar(n)] else NatToString(n / 10) + [DigitChar(n % 10)]
  }

  /** `str(i)` for any integer: a minus sign in front of negative numbers. */
  function IntToString(i: int): (r: string)
    ensures 1 <= |r|
    ensures forall k :: 0 <= k < |r| ==> IsDigit(r[k]) || r[k] == '-'
  {
    if i < 0 then ['-'] + NatToString(-i) else NatToString(i)
  }

  /** The value of a run of decimal digits. */
  function DigitsValue(s: string): (r: nat)
    requires AllDigits(s)
  {
    if s == [] then 0 else DigitsValue(s[..|s| - 1]) * 10 + DigitValue(s[|s| - 1])
  }

  /** Decimal rendering of naturals is undone by reading the digits back. */
  lemma {:induction false} NatToStringRoundTrip(n: nat)
    ensures DigitsValue(NatToString(n)) == n
    decreases n
  {
    var s := NatToString(n);
    if n < 10 {
      assert s[..0] == [];
    } else {
      NatToStringRoundTrip(n / 10);
      assert s[..|s| - 1] == NatToString(n / 10);
    }
  }

  /** Distinct naturals render to distinct strings. */
  lemma NatToStringInjective(a: nat, b: nat)
    requires NatToString(a) == NatToString(b)
    ensures a == b
  {
    NatToStringRoundTrip(a);
    NatToStringRoundTrip(b);
  }

  /** The characters Python's `int()` strips from both ends (ASCII only). */
  predicate IsSpace(c: char)
  {
    c == ' ' || c == '\t' || c == '\n' || c == '\r' || c as int == 11 || c as int == 12
  }

  function StripLeft(s: string): (r: string)
    ensures |r| <= |s| && r == s[|s| - |r|..]
    ensures r == [] || !IsSpace(r[0])
    ensures forall k :: 0 <= k < |s| - |r| ==> IsSpace(s[k])
  {
    if s != [] && IsSpace(s[0]) then StripLeft(s[1..]) else s
  }

  function StripRight(s: string): (r: string)
    ensures |r| <= |s| && r == s[..|r|]
    ensures r == [] || !IsSpace(r[|r| - 1])
    ensures forall k :: |r| <= k < |s| ==> IsSpace(s[k])
  {
    if s != [] && IsSpace(s[|s| - 1]) then StripRight(s[..|s| - 1]) else s
  }

  /**
   * `int(s)` for a string: surrounding whitespace, an optional sign, then one or
   * more decimal digits. `None` stands for the `ValueError` Python raises.
   */
  function ParseInt(s: string): (r: Option<int>)
  {
    ParseNumeral(StripRight(StripLeft(s)))
  }

  /** An optional sign followed by one or more digits, nothing else. */
  function ParseNumeral(t: string): (r: Option<int>)
  {
    if |t| == 0 then None
    else if t[0] == '-' || t[0] == '+' then
      var digits := t[1..];
      if |digits| == 0 || !AllDigits(digits) then None
      else if t[0] == '-' then Some(0 - DigitsValue(digits))
      else Some(DigitsValue(digits))
    else if AllDigits(t) then Some(DigitsValue(t))
    else None
  }

  /** A character that is no digit, sign or space anywhere in `s` makes `int(s)` raise. */
  lemma ParseIntRejects(s: string, k: nat)
    requires k < |s| && !IsDigit(s[k]) && !IsSpace(s[k]) && s[k] != '-' && s[k] != '+'
    ensures ParseInt(s) == None
  {
    var t := StripRight(StripLeft(s));
    var j := StripKeeps(s, k);
    NumeralRejects(t, j);
  }

  /** A non-space character survives stripping, at a shifted position. */
  lemma StripKeeps(s: string, k: nat) returns (j: nat)
    requires k < |s| && !IsSpace(s[k])
    ensures j < |StripRight(StripLeft(s))| && StripRight(StripLeft(s))[j] == s[k]
  {
    var u := StripLeft(s);
    var t := StripRight(u);
    var off := |s| - |u|;
    assert off <= k;
    j := k - off;
    assert s[k] == u[j];
    assert j < |t|;
  }

  /** A character that is no digit or sign makes a numeral invalid. */
  lemma NumeralRejects(t: string, j: nat)
    requires j < |t| && !IsDigit(t[j]) && t[j] != '-' && t[j] != '+'
    ensures ParseNumeral(t) == None
  {
    assert !AllDigits(t);
    if j > 0 {
      assert t[1..][j - 1] == t[j];
      assert !AllDigits(t[1..]);
    }
  }

  /** `int(str(i)) == i` for every integer, negative ones included. */
  lemma IntToStringRoundTrip(i: int)
    ensures ParseInt(IntToString(i)) == Some(i)
  {
    if i < 0 {
      var n: nat := -i;
      assert IntToString(i) == ['-'] + NatToString(n);
      NegativeRoundTrip(n);
    } else {
      var n: nat := i;
      assert IntToString(i) == NatToString(n);
      UnsignedRoundTrip(n);
    }
  }

  /** `int(str(n)) == n` for a natural number. */
  lemma UnsignedRoundTrip(n: nat)
    ensures ParseInt(NatToString(n)) == Some(n)
  {
    var d := NatToString(n);
    NatToStringRoundTrip(n);
    ParseUnsigned(d);
  }

  /** `int("-" + str(n)) == -n` for a natural number. */
  lemma NegativeRoundTrip(n: nat)
    ensures ParseInt(['-'] + NatToString(n)) == Some(-(n as int))
  {
    NatToStringRoundTrip(n);
    NegativeDigits(NatToString(n), n);
  }

  /** A minus sign followed by the digits of n reads as -n. */
  lemma NegativeDigits(d: string, n: nat)
    requires |d| >= 1 && AllDigits(d) && DigitsValue(d) == n
    ensures ParseInt(['-'] + d) == Some(-(n as int))
  {
    var s := ['-'] + d;
    assert s[|s| - 1] == d[|d| - 1];
    StripsNothing(s);
    NegativeNumeral(d);
    assert ParseNumeral(s) == Some(0 - DigitsValue(d));
  }

  lemma ParseUnsigned(d: string)
    requires |d| >= 1 && AllDigits(d)
    ensures ParseInt(d) == Some(DigitsValue(d))
  {
    StripsNothing(d);
    assert ParseNumeral(d) == Some(DigitsValue(d));
  }

  lemma NegativeNumeral(d: string)
    requires |d| >= 1 && AllDigits(d)
    ensures ParseNumeral(['-'] + d) == Some(0 - DigitsValue(d))
  {
    var s := ['-'] + d;
    assert s[0] == '-';
    assert s[1..] == d;
  }

  /** Stripping leaves a string alone when neither end is a space. */
  lemma StripsNothing(s: string)
    requires |s| >= 1 && !IsSpace(s[0]) && !IsSpace(s[|s| - 1])
    ensures StripRight(StripLeft(s)) == s
  {
    assert StripLeft(s) == s;
  }

  /** `pat` occurs in `s` starting at position k. */
  predicate OccursAt(s: string, pat: string, k: nat)
  {
    k + |pat| <= |s| && s[k..k + |pat|] == pat
  }

  /** `pat in s`, Python's substring test. */
  predicate Contains(s: string, pat: string)
  {
    exists k: nat :: k <= |s| && OccursAt(s, pat, k)
  }

  /** The first occurrence of `pat` at or after position `from`. */
  function FindFrom(s: string, pat: string, from: nat): (r: Option<nat>)
    ensures r.Some? ==> from <= r.value && r.value + |pat| <= |s|
    decreases |s| - from
  {
    if from + |pat| > |s| then None
    else if s[from..from + |pat|] == pat then Some(from)
    else FindFrom(s, pat, from + 1)
  }

  /** `FindFrom` reports the first occurrence at or after `from`, and `None` only when there is none. */
  lemma {:induction false} FindFromSpec(s: string, pat: string, from: nat)
    ensures var r := FindFrom(s, pat, from);
      && (r.Some? ==> OccursAt(s, pat, r.value))
      && (r.Some? ==> forall k: nat :: from <= k < r.value ==> !OccursAt(s, pat, k))
      && (r.None? ==> forall k: nat :: from <= k ==> !OccursAt(s, pat, k))
    decreases |s| - from
  {
    if from + |pat| <= |s| && s[from..from + |pat|] != pat {
      FindFromSpec(s, pat, from + 1);
    }
  }

  /** `s.find(pat)`, with `None` for -1. */
  function Find(s: string, pat: string): (r: Option<nat>)
    ensures r.Some? ==> r.value + |pat| <= |s|
  {
    FindFrom(s, pat, 0)
  }

  /** `Find` reports the first occurrence, and `None` exactly when there is none. */
  lemma FindSpec(s: string, pat: string)
    ensures var r := Find(s, pat);
      && (r.Some? ==> OccursAt(s, pat, r.value) && forall k: nat :: k < r.value ==> !OccursAt(s, pat, k))
      && (r.None? <==> !Contains(s, pat))
  {
    FindFromSpec(s, pat, 0);
  }

  /** `s.split(sep)` for a non-empty separator: left to right, non-overlapping. */
  function Split(s: string, sep: string): (parts: seq<string>)
    requires |sep| > 0
    ensures |parts| >= 1
    decreases |s|
  {
    var f := Find(s, sep);
    if f.None? then [s] else [s[..f.value]] + Split(s[f.value + |sep|..], sep)
  }

  /** `sep.join(xs)`. */
  function Join(xs: seq<string>, sep: string): (r: string)
  {
    if |xs| == 0 then ""
    else if |xs| == 1 then xs[0]
    else xs[0] + sep + Join(xs[1..], sep)
  }

  /** Joining the pieces of a split with the same separator gives the string back. */
  lemma {:induction false} SplitJoinRoundTrip(s: string, sep: string)
    requires |sep| > 0
    ensures Join(Split(s, sep), sep) == s
    decreases |s|
  {
    var f := Find(s, sep);
    FindSpec(s, sep);
    if f.Some? {
      var k := f.value;
      var rest := s[k + |sep|..];
      var parts := Split(s, sep);
      assert parts == [s[..k]] + Split(rest, sep);
      assert parts[1..] == Split(rest, sep);
      assert Join(parts, sep) == s[..k] + sep + Join(Split(rest, sep), sep);
      SplitJoinRoundTrip(rest, sep);
      assert s == s[..k] + sep + rest by {
        assert s[k..k + |sep|] == sep;
      }
    }
  }

  /** A string without the separator splits into itself alone. */
  lemma SplitWithoutSeparator(s: string, sep: string)
    requires |sep| > 0
    ensures !Contains(s, sep) <==> Split(s, sep) == [s]
  {
    FindSpec(s, sep);
    var f := Find(s, sep);
    if f.Some? {
      assert |Split(s, sep)| == 1 + |Split(s[f.value + |sep|..], sep)|;
    }
  }

  /** Splitting at a known first occurrence. */
  lemma SplitAtFirst(s: string, sep: string, k: nat)
    requires |sep| > 0 && OccursAt(s, sep, k)
    requires forall j: nat :: j < k ==> !OccursAt(s, sep, j)
    ensures Split(s, sep) == [s[..k]] + Split(s[k + |sep|..], sep)
  {
    FindFirstOccurrence(s, sep, k);
  }

  /** The first occurrence is the one `Find` reports. */
  lemma FindFirstOccurrence(s: string, sep: string, k: nat)
    requires OccursAt(s, sep, k)
    requires forall j: nat :: j < k ==> !OccursAt(s, sep, j)
    ensures Find(s, sep) == Some(k)
  {
    FindSpec(s, sep);
    assert Contains(s, sep);
  }

  /** No proper suffix of `pat` is also a prefix of it, so occurrences never overlap. */
  predicate Unbordered(pat: string)
  {
    forall d :: 0 < d < |pat| ==> pat[d..] != pat[..|pat| - d]
  }

  /**
   * For an unbordered separator, the last piece of `a + sep + b` is `b` whenever
   * `b` holds no separator: `s.rsplit(sep, 1)[1]` picks out the text after the
   * last separator however `a` looks.
   */
  lemma {:induction false} SplitLastPiece(a: string, sep: string, b: string)
    requires |sep| > 0 && Unbordered(sep) && !Contains(b, sep)
    ensures var parts := Split(a + sep + b, sep); parts[|parts| - 1] == b
    decreases |a|
  {
    var s := a + sep + b;
    SeparatorFoundByAt(a, sep, b);
    FindSpec(s, sep);
    var k := Find(s, sep).value;
    var tail := s[k + |sep|..];
    SplitAtFind(s, sep, k);
    if k == |a| {
      assert tail == b;
      SplitWithoutSeparator(b, sep);
    } else {
      NoStraddle(a, sep, b, k);
      var a' := a[k + |sep|..];
      assert tail == a' + sep + b;
      SplitLastPiece(a', sep, b);
    }
  }

  /** Some separator is found in `a + sep + b`, no later than the one after `a`. */
  lemma SeparatorFoundByAt(a: string, sep: string, b: string)
    ensures Find(a + sep + b, sep).Some? && Find(a + sep + b, sep).value <= |a|
  {
    var s := a + sep + b;
    assert s[|a|..|a| + |sep|] == sep;
    assert OccursAt(s, sep, |a|);
    FindSpec(s, sep);
  }

  /** One step of `Split`: the text before the first separator, then the rest split again. */
  lemma SplitAtFind(s: string, sep: string, k: nat)
    requires |sep| > 0 && Find(s, sep) == Some(k)
    ensures Split(s, sep) == [s[..k]] + Split(s[k + |sep|..], sep)
  {
  }

  /** An occurrence of an unbordered separator that starts inside `a` is an occurrence in `a`. */
  lemma OccursInside(a: string, sep: string, b: string, k: nat)
    requires Unbordered(sep) && k < |a| && OccursAt(a + sep + b, sep, k)
    ensures OccursAt(a, sep, k)
  {
    NoStraddle(a, sep, b, k);
    assert (a + sep + b)[k..k + |sep|] == a[k..k + |sep|];
  }

  /** An occurrence of an unbordered separator that starts inside `a` also ends inside it. */
  lemma NoStraddle(a: string, sep: string, b: string, k: nat)
    requires Unbordered(sep) && k < |a| && OccursAt(a + sep + b, sep, k)
    ensures k + |sep| <= |a|
  {
    if k + |sep| > |a| {
      OverlapIsBorder(a, sep, b, k);
      assert false;
    }
  }

  /** Two occurrences of `sep` that overlap make a suffix of `sep` equal to a prefix of it. */
  lemma OverlapIsBorder(a: string, sep: string, b: string, k: nat)
    requires k < |a| < k + |sep| && OccursAt(a + sep + b, sep, k)
    ensures sep[|a| - k..] == sep[..|sep| - (|a| - k)]
  {
    var s := a + sep + b;
    var d := |a| - k;
    forall t | 0 <= t < |sep| - d
      ensures sep[d..][t] == sep[..|sep| - d][t]
    {
      assert sep[d + t] == s[k + d + t];
      assert s[|a| + t] == sep[t];
    }
  }
}

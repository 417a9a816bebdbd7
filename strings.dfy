/**
 * The handful of JavaScript string operations the core relies on, over Dafny strings
 * (`seq<char>`). Case mapping is ASCII only; see README for why that is exact where it is used.
 */
module Strings {
  import opened Wrappers

  predicate IsAsciiLower(c: char) { 'a' <= c <= 'z' }
  predicate IsAsciiUpper(c: char) { 'A' <= c <= 'Z' }
  predicate IsDigit(c: char) { '0' <= c <= '9' }

  /** `[A-Za-z0-9]` */
  predicate IsAlnum(c: char) { IsAsciiLower(c) || IsAsciiUpper(c) || IsDigit(c) }

  /** `[0-9A-F]` under the `i` flag */
  predicate IsHexDigit(c: char) { IsDigit(c) || 'a' <= c <= 'f' || 'A' <= c <= 'F' }

  function UpperChar(c: char): (u: char)
    ensures !IsAsciiLower(u)
    ensures IsAsciiLower(c) || u == c
  {
    if IsAsciiLower(c) then c - 'a' + 'A' else c
  }

  function LowerChar(c: char): (l: char)
    ensures !IsAsciiUpper(l)
    ensures IsAsciiUpper(c) || l == c
  {
    if IsAsciiUpper(c) then c - 'A' + 'a' else c
  }

  /** `String.prototype.toUpperCase`, restricted to ASCII letters. */
  function ToUpper(s: string): string
  {
    seq(|s|, i requires 0 <= i < |s| => UpperChar(s[i]))
  }

  /** Upper-casing keeps the length and maps every character on its own. */
  lemma ToUpperSpec(s: string)
    ensures |ToUpper(s)| == |s|
    ensures forall i :: 0 <= i < |s| ==> ToUpper(s)[i] == UpperChar(s[i])
    ensures forall i :: 0 <= i < |s| ==> !IsAsciiLower(ToUpper(s)[i])
  {
  }

  function ToLower(s: string): string
  {
    seq(|s|, i requires 0 <= i < |s| => LowerChar(s[i]))
  }

  lemma ToLowerSpec(s: string)
    ensures |ToLower(s)| == |s|
    ensures forall i :: 0 <= i < |s| ==> ToLower(s)[i] == LowerChar(s[i])
    ensures forall i :: 0 <= i < |s| ==> !IsAsciiUpper(ToLower(s)[i])
  {
  }

  /** A lower-case letter absent from `s` in both cases is absent from its lower-case form. */
  lemma LowerLacks(s: string, c: char)
    requires IsAsciiLower(c) && c !in s && c - 'a' + 'A' !in s
    ensures c !in ToLower(s)
  {
    ToLowerSpec(s);
    forall i | 0 <= i < |s|
      ensures ToLower(s)[i] != c
    {
      assert s[i] in s;
    }
  }

  /** A string without lower-case ASCII letters is its own upper-case form. */
  lemma ToUpperNoLower(s: string)
    requires forall i :: 0 <= i < |s| ==> !IsAsciiLower(s[i])
    ensures ToUpper(s) == s
  {
  }

  /** `s.startsWith(p)` */
  predicate StartsWith(s: string, p: string) {
    |p| <= |s| && s[..|p|] == p
  }

  /** `s.includes(p)` */
  predicate Contains(s: string, p: string)
    decreases |s|
  {
    StartsWith(s, p) || (|s| > 0 && Contains(s[1..], p))
  }

  /** A pattern holding a character the text lacks does not occur in it. */
  lemma {:induction false} MissingCharNotContained(s: string, p: string, j: nat)
    requires j < |p| && p[j] !in s
    ensures !Contains(s, p)
    decreases |s|
  {
    if |p| <= |s| {
      assert s[..|p|][j] == s[j] && s[j] in s;
    }
    if |s| > 0 {
      MissingCharNotContained(s[1..], p, j);
    }
  }

  /** `s.indexOf(p)`, with `None` for -1 */
  function IndexOf(s: string, p: string): (r: Option<nat>)
    ensures r.Some? ==> r.value + |p| <= |s| && s[r.value..r.value + |p|] == p
    ensures r.None? ==> !Contains(s, p)
    decreases |s|
  {
    if StartsWith(s, p) then Some(0)
    else if |s| == 0 then None
    else match IndexOf(s[1..], p)
      case None => None
      case Some(i) => Some(i + 1)
  }

  /** `s.substring(0, n)` for n >= 0 */
  function Prefix(s: string, n: nat): (r: string)
    ensures |r| == if n <= |s| then n else |s|
    ensures StartsWith(s, r)
  {
    if n <= |s| then s[..n] else s
  }

  /** `s.replace(/^0+/, '')` */
  function StripLeadingZeros(s: string): string
    decreases |s|
  {
    if |s| > 0 && s[0] == '0' then StripLeadingZeros(s[1..]) else s
  }

  /** Stripping removes a run of `'0'`s from the front and nothing else, and removes all of it. */
  lemma {:induction false} StripLeadingZerosSpec(s: string)
    ensures |StripLeadingZeros(s)| <= |s|
    ensures StripLeadingZeros(s) == [] || StripLeadingZeros(s)[0] != '0'
    ensures s[|s| - |StripLeadingZeros(s)|..] == StripLeadingZeros(s)
    ensures forall i :: 0 <= i < |s| - |StripLeadingZeros(s)| ==> s[i] == '0'
    decreases |s|
  {
    if |s| > 0 && s[0] == '0' {
      StripLeadingZerosSpec(s[1..]);
      var r := StripLeadingZeros(s);
      assert s[1..][|s| - 1 - |r|..] == s[|s| - |r|..];
      forall i | 0 <= i < |s| - |r|
        ensures s[i] == '0'
      {
        if i > 0 {
          assert s[i] == s[1..][i - 1];
        }
      }
    }
  }

  /** `/^[0-9A-F]+$/i.test(s)` */
  predicate IsHex(s: string) {
    |s| > 0 && forall i :: 0 <= i < |s| ==> IsHexDigit(s[i])
  }

  /** `s.split(c)` for a one-character separator. */
  function SplitOn(s: string, c: char): (parts: seq<string>)
    ensures |parts| >= 1
    ensures forall i :: 0 <= i < |parts| ==> c !in parts[i]
  {
    if |s| == 0 then [""]
    else if s[0] == c then [""] + SplitOn(s[1..], c)
    else
      var rest := SplitOn(s[1..], c);
      [[s[0]] + rest[0]] + rest[1..]
  }

  lemma {:induction false} ContainsDropPrefix(s: string, k: nat, p: string)
    requires k <= |s|
    requires Contains(s[k..], p)
    ensures Contains(s, p)
    decreases k
  {
    if k > 0 {
      assert s[1..][k - 1..] == s[k..];
      ContainsDropPrefix(s[1..], k - 1, p);
    }
  }

  /** Whatever contains `a + b` contains `b`. */
  lemma {:induction false} ContainsSuffixOfPattern(s: string, a: string, b: string)
    requires Contains(s, a + b)
    ensures Contains(s, b)
    decreases |s|
  {
    if StartsWith(s, a + b) {
      var t := s[|a|..];
      assert t[..|b|] == (a + b)[|a|..];
      assert StartsWith(t, b);
      assert Contains(t, b);
      ContainsDropPrefix(s, |a|, b);
    } else {
      ContainsSuffixOfPattern(s[1..], a, b);
    }
  }

  /** The first part of a split is a prefix, followed by the separator when there is a second part. */
  lemma {:induction false} SplitHead(s: string, c: char)
    ensures StartsWith(s, SplitOn(s, c)[0])
    ensures |SplitOn(s, c)| >= 2 ==> StartsWith(s, SplitOn(s, c)[0] + [c])
    decreases |s|
  {
    if |s| > 0 && s[0] != c {
      var rest := SplitOn(s[1..], c);
      SplitHead(s[1..], c);
      assert SplitOn(s, c)[0] == [s[0]] + rest[0];
      if |rest| >= 2 {
        assert s[..|rest[0]| + 2] == [s[0]] + s[1..][..|rest[0]| + 1];
      }
      assert s[..|rest[0]| + 1] == [s[0]] + s[1..][..|rest[0]|];
    }
  }

  lemma {:induction false} SplitNoSeparator(a: string, c: char)
    requires c !in a
    ensures SplitOn(a, c) == [a]
    decreases |a|
  {
    if |a| > 0 {
      SplitNoSeparator(a[1..], c);
      assert [a[0]] + a[1..] == a;
    }
  }

  /** Splitting at the first separator: the text before it is the first part. */
  lemma {:induction false} SplitAtFirst(a: string, c: char, b: string)
    requires c !in a
    ensures SplitOn(a + [c] + b, c) == [a] + SplitOn(b, c)
    decreases |a|
  {
    var s := a + [c] + b;
    if |a| == 0 {
      assert s[1..] == b;
    } else {
      assert s[1..] == a[1..] + [c] + b;
      SplitAtFirst(a[1..], c, b);
      assert [a[0]] + a[1..] == a;
    }
  }

  /** The first occurrence of a pattern whose first character is absent from `a`. */
  lemma {:induction false} IndexOfAfter(a: string, p: string, b: string)
    requires |p| > 0 && p[0] !in a
    ensures IndexOf(a + p + b, p) == Some(|a|)
    decreases |a|
  {
    var s := a + p + b;
    if |a| == 0 {
      assert s[..|p|] == p;
    } else {
      assert s[0] == a[0] != p[0];
      assert !StartsWith(s, p);
      assert s[1..] == a[1..] + p + b;
      IndexOfAfter(a[1..], p, b);
    }
  }

  /** The character of decimal digit `d`. */
  function DigitChar(d: nat): (c: char)
    requires d < 10
    ensures IsDigit(c) && c as int - '0' as int == d
  {
    ('0' as int + d) as char
  }

  /** A natural number in decimal, as template literals render it. */
  function NatToDecimal(n: nat): (s: string)
    ensures |s| >= 1 && forall i :: 0 <= i < |s| ==> IsDigit(s[i])
    ensures n > 0 ==> s[0] != '0'
    decreases n
  {
    if n < 10 then [DigitChar(n)] else NatToDecimal(n / 10) + [DigitChar(n % 10)]
  }

  /** The number a string of decimal digits denotes. */
  function DecimalValue(s: string): nat
    requires forall i :: 0 <= i < |s| ==> IsDigit(s[i])
    decreases |s|
  {
    if s == [] then 0
    else
      assert IsDigit(s[|s| - 1]);
      var d: nat := s[|s| - 1] as int - '0' as int;
      DecimalValue(s[..|s| - 1]) * 10 + d
  }

  /** Rendering a number in decimal loses nothing. */
  lemma {:induction false} DecimalRoundTrip(n: nat)
    ensures DecimalValue(NatToDecimal(n)) == n
    decreases n
  {
    var s := NatToDecimal(n);
    if n >= 10 {
      DecimalRoundTrip(n / 10);
      assert s[..|s| - 1] == NatToDecimal(n / 10);
    }
  }

  /** An integer in decimal, with a leading `-` when negative. */
  function IntToDecimal(n: int): (s: string)
    ensures |s| >= 1
    ensures n < 0 <==> s[0] == '-'
  {
    if n < 0 then "-" + NatToDecimal(-n) else NatToDecimal(n)
  }
}

/**
 * The java.lang.String, java.util.regex and Commons Lang operations the core
 * relies on, over `string` (a sequence of UTF-16-free Unicode characters).
 */
module Text {
  import opened Wrappers

  /** Java's String.startsWith. */
  predicate StartsWith(s: string, p: string)
  {
    |p| <= |s| && s[..|p|] == p
  }

  /** Java's String.endsWith. */
  predicate EndsWith(s: string, p: string)
  {
    |p| <= |s| && s[|s| - |p|..] == p
  }

  /** `sub` occurs in `s` starting at position `i`. */
  predicate OccursAt(s: string, sub: string, i: int)
  {
    0 <= i && i + |sub| <= |s| && s[i..i + |sub|] == sub
  }

  /** Java's String.contains. */
  predicate Contains(s: string, sub: string)
  {
    exists i | 0 <= i <= |s| - |sub| :: OccursAt(s, sub, i)
  }

  lemma ContainsAt(s: string, sub: string, i: int)
    requires OccursAt(s, sub, i)
    ensures Contains(s, sub)
  {
  }

  lemma ContainsPrefix(s: string, p: string)
    requires StartsWith(s, p)
    ensures Contains(s, p)
  {
    assert OccursAt(s, p, 0);
  }

  lemma ContainsInMiddle(a: string, sub: string, b: string)
    ensures Contains(a + sub + b, sub)
  {
    var s := a + sub + b;
    assert s[|a|..|a| + |sub|] == sub;
    assert OccursAt(s, sub, |a|);
  }

  /** Java's String.lastIndexOf(char): the last position of `c`, or -1. */
  function LastIndexOf(s: string, c: char): (r: int)
    ensures -1 <= r < |s|
    ensures r >= 0 ==> s[r] == c
    ensures forall j :: r < j < |s| ==> s[j] != c
  {
    LastIndexBefore(s, c, |s|)
  }

  /** The last position of `c` among the first n characters, or -1. */
  function LastIndexBefore(s: string, c: char, n: nat): (r: int)
    requires n <= |s|
    ensures -1 <= r < n
    ensures r >= 0 ==> s[r] == c
    ensures forall j :: r < j < n ==> s[j] != c
  {
    if n == 0 then -1
    else if s[n - 1] == c then n - 1
    else LastIndexBefore(s, c, n - 1)
  }

  /** Java's String.indexOf(char): the first position of `c`, or -1. */
  function IndexOf(s: string, c: char): (r: int)
    ensures -1 <= r < |s|
    ensures r >= 0 ==> s[r] == c
    ensures forall j :: 0 <= j < |s| && (r == -1 || j < r) ==> s[j] != c
  {
    if |s| == 0 then -1
    else if s[0] == c then 0
    else var k := IndexOf(s[1..], c); if k == -1 then -1 else k + 1
  }

  lemma LastIndexOfIs(s: string, c: char, i: int)
    requires 0 <= i < |s| && s[i] == c
    requires forall j :: i < j < |s| ==> s[j] != c
    ensures LastIndexOf(s, c) == i
  {
  }

  lemma IndexOfIs(s: string, c: char, i: int)
    requires 0 <= i < |s| && s[i] == c
    requires forall j :: 0 <= j < i ==> s[j] != c
    ensures IndexOf(s, c) == i
  {
  }

  lemma LastIndexOfAppend(a: string, c: char, b: string)
    requires forall j :: 0 <= j < |b| ==> b[j] != c
    ensures LastIndexOf(a + [c] + b, c) == |a|
  {
    var s := a + [c] + b;
    assert s[|a|] == c;
    assert s[|a| + 1..] == b;
    forall j | |a| < j < |s|
      ensures s[j] != c
    {
      assert s[j] == s[|a| + 1..][j - |a| - 1];
    }
    LastIndexOfIs(s, c, |a|);
  }

  lemma IndexOfPrepend(a: string, c: char, b: string)
    requires forall j :: 0 <= j < |a| ==> a[j] != c
    ensures IndexOf(a + [c] + b, c) == |a|
  {
    var s := a + [c] + b;
    assert s[|a|] == c;
    assert forall j :: 0 <= j < |a| ==> s[j] == a[j];
    IndexOfIs(s, c, |a|);
  }

  /** Characters that Java's String.trim removes: every code point up to U+0020. */
  predicate IsTrimSpace(c: char)
  {
    c <= ' '
  }

  /** A string that String.trim leaves as it is. */
  predicate IsTrimmed(s: string)
  {
    s == [] || (!IsTrimSpace(s[0]) && !IsTrimSpace(s[|s| - 1]))
  }

  function TrimStart(s: string): (r: string)
    ensures |r| <= |s| && r == s[|s| - |r|..]
    ensures r == [] || !IsTrimSpace(r[0])
    ensures forall k :: 0 <= k < |s| - |r| ==> IsTrimSpace(s[k])
  {
    if |s| > 0 && IsTrimSpace(s[0]) then TrimStart(s[1..]) else s
  }

  function TrimEnd(s: string): (r: string)
    ensures |r| <= |s| && r == s[..|r|]
    ensures r == [] || !IsTrimSpace(r[|r| - 1])
    ensures forall k :: |r| <= k < |s| ==> IsTrimSpace(s[k])
  {
    if |s| > 0 && IsTrimSpace(s[|s| - 1]) then TrimEnd(s[..|s| - 1]) else s
  }

  /** Java's String.trim. */
  function Trim(s: string): (r: string)
    ensures IsTrimmed(r)
    ensures |r| <= |s|
  {
    var t := TrimStart(s);
    var r := TrimEnd(t);
    assert r != [] ==> r[0] == t[0];
    r
  }

  lemma TrimOfTrimmed(s: string)
    requires IsTrimmed(s)
    ensures Trim(s) == s
  {
  }

  lemma TrimAllSpace(s: string)
    requires forall k :: 0 <= k < |s| ==> IsTrimSpace(s[k])
    ensures Trim(s) == ""
  {
  }

  /**
   * Lower-casing on the ASCII letters only; every other character is kept. Java's
   * String.toLowerCase also maps non-ASCII letters, which this does not.
   */
  function LowerChar(c: char): char
  {
    if 'A' <= c <= 'Z' then (c as int + 32) as char else c
  }

  function ToLower(s: string): (r: string)
    ensures |r| == |s|
    ensures forall i :: 0 <= i < |s| ==> r[i] == LowerChar(s[i])
  {
    seq(|s|, i requires 0 <= i < |s| => LowerChar(s[i]))
  }

  /** String.length(): UTF-16 code units, two for a character outside the Basic Multilingual Plane. */
  function Utf16Length(s: string): (n: nat)
    ensures |s| <= n <= 2 * |s|
    ensures n == 0 <==> s == []
  {
    if s == [] then 0
    else Utf16Length(s[..|s| - 1]) + (if s[|s| - 1] as int >= 0x1_0000 then 2 else 1)
  }

  /** java.lang.Character.isWhitespace. */
  predicate IsJavaWhitespace(c: char)
  {
    || c == ' ' || ('\t' <= c <= '\r') || ('\U{1C}' <= c <= '\U{1F}')
    || c == '\U{1680}' || ('\U{2000}' <= c <= '\U{2006}') || ('\U{2008}' <= c <= '\U{200A}')
    || c == '\U{2028}' || c == '\U{2029}' || c == '\U{205F}' || c == '\U{3000}'
  }

  /** Commons Lang StringUtils.isBlank: null, empty or whitespace only. */
  predicate IsBlank(s: Option<string>)
  {
    s.None? || forall k :: 0 <= k < |s.value| ==> IsJavaWhitespace(s.value[k])
  }

  /** Java's String.isEmpty on a possibly null string, the way the core tests `s == null || s.isEmpty()`. */
  predicate IsNullOrEmpty(s: Option<string>)
  {
    s.None? || s.value == ""
  }

  // ---------------------------------------------------------------------------
  // Regular expressions of the form  P([^?]+)  with P a literal, and  \d+

  /** The longest prefix of `s` without '?'. */
  function UpToQuery(s: string): (r: string)
    ensures |r| <= |s| && r == s[..|r|]
    ensures forall k :: 0 <= k < |r| ==> r[k] != '?'
    ensures |r| == |s| || s[|r|] == '?'
  {
    if |s| == 0 || s[0] == '?' then "" else [s[0]] + UpToQuery(s[1..])
  }

  /** A match of P([^?]+) starts at `i`. */
  predicate GroupMatchAt(s: string, p: string, i: int)
  {
    OccursAt(s, p, i) && i + |p| < |s| && s[i + |p|] != '?'
  }

  function FindGroupFrom(s: string, p: string, from: nat): (r: Option<string>)
    ensures r.Some? <==> exists i :: from <= i && GroupMatchAt(s, p, i)
    decreases |s| - from
  {
    if from + |p| >= |s| then
      assert forall i :: from <= i ==> !GroupMatchAt(s, p, i);
      None
    else if GroupMatchAt(s, p, from) then Some(UpToQuery(s[from + |p|..]))
    else FindGroupFrom(s, p, from + 1)
  }

  /** Matcher.find() then group(1) for the pattern P([^?]+), P a literal. */
  function FindGroup(s: string, p: string): (r: Option<string>)
    ensures r.Some? <==> exists i :: 0 <= i && GroupMatchAt(s, p, i)
  {
    FindGroupFrom(s, p, 0)
  }

  lemma FindGroupOfMatchAt(s: string, p: string, from: nat, i: nat)
    requires from <= i && GroupMatchAt(s, p, i)
    requires forall j :: from <= j < i ==> !GroupMatchAt(s, p, j)
    ensures FindGroupFrom(s, p, from) == Some(UpToQuery(s[i + |p|..]))
    decreases i - from
  {
    if from < i {
      FindGroupOfMatchAt(s, p, from + 1, i);
    }
  }

  /** The group that P([^?]+) captures in P + g + rest, when g is the whole run before '?' or the end. */
  lemma {:induction false} FindGroupOfPrefixed(p: string, g: string, rest: string)
    requires g != "" && forall k :: 0 <= k < |g| ==> g[k] != '?'
    requires rest == "" || rest[0] == '?'
    ensures FindGroup(p + g + rest, p) == Some(g)
  {
    var s := p + g + rest;
    assert s[..|p|] == p;
    assert s[|p|] == g[0];
    assert GroupMatchAt(s, p, 0);
    FindGroupOfMatchAt(s, p, 0, 0);
    assert s[|p|..] == g + rest;
    UpToQueryOfRun(g, rest);
  }

  lemma {:induction false} UpToQueryOfRun(g: string, rest: string)
    requires forall k :: 0 <= k < |g| ==> g[k] != '?'
    requires rest == "" || rest[0] == '?'
    ensures UpToQuery(g + rest) == g
  {
    if g == [] {
      assert g + rest == rest;
    } else {
      assert (g + rest)[1..] == g[1..] + rest;
      UpToQueryOfRun(g[1..], rest);
    }
  }

  predicate IsDigit(c: char)
  {
    '0' <= c <= '9'
  }

  /** The longest prefix of `s` made of ASCII digits. */
  function TakeDigits(s: string): (r: string)
    ensures |r| <= |s| && r == s[..|r|]
    ensures forall k :: 0 <= k < |r| ==> IsDigit(r[k])
    ensures |r| == |s| || !IsDigit(s[|r|])
  {
    if |s| == 0 || !IsDigit(s[0]) then "" else [s[0]] + TakeDigits(s[1..])
  }

  /** The first position holding an ASCII digit, or -1. */
  function FirstDigit(s: string): (r: int)
    ensures -1 <= r < |s|
    ensures r >= 0 ==> IsDigit(s[r])
    ensures forall j :: 0 <= j < |s| && (r == -1 || j < r) ==> !IsDigit(s[j])
  {
    if |s| == 0 then -1
    else if IsDigit(s[0]) then 0
    else var k := FirstDigit(s[1..]); if k == -1 then -1 else k + 1
  }

  /** Matcher.find() then group() for the pattern \d+ (ASCII digits, Java's default). */
  function FirstDigitRun(s: string): (r: Option<string>)
    ensures r.Some? <==> exists k :: 0 <= k < |s| && IsDigit(s[k])
    ensures r.Some? ==> r.value != "" && forall k :: 0 <= k < |r.value| ==> IsDigit(r.value[k])
  {
    var k := FirstDigit(s);
    if k == -1 then None else Some(TakeDigits(s[k..]))
  }

  function DigitValue(c: char): nat
    requires IsDigit(c)
  {
    c as int - '0' as int
  }

  /** The value of a string of ASCII digits, most significant first. */
  function DecimalValue(s: string): nat
    requires forall k :: 0 <= k < |s| ==> IsDigit(s[k])
  {
    if s == [] then 0 else 10 * DecimalValue(s[..|s| - 1]) + DigitValue(s[|s| - 1])
  }

  const IntMax: int := 0x7fff_ffff

  /** Integer.parseInt of a digit string: NumberFormatException (None) past Integer.MAX_VALUE. */
  function ParseInt(s: string): (r: Option<int>)
    requires s != "" && forall k :: 0 <= k < |s| ==> IsDigit(s[k])
    ensures r.Some? ==> 0 <= r.value <= IntMax
    ensures r.None? <==> DecimalValue(s) > IntMax
  {
    var v := DecimalValue(s);
    if v <= IntMax then Some(v) else None
  }

  /** Decimal rendering of a natural number (Integer.toString, String.valueOf, string concatenation). */
  function NatToString(n: nat): (r: string)
    ensures r != "" && forall k :: 0 <= k < |r| ==> IsDigit(r[k])
    decreases n
  {
    var d := (n % 10 + '0' as int) as char;
    if n < 10 then [d] else NatToString(n / 10) + [d]
  }

  /** Rendering a number and reading it back gives the number. */
  lemma {:induction false} NatToStringRoundTrip(n: nat)
    ensures DecimalValue(NatToString(n)) == n
    decreases n
  {
    var s := NatToString(n);
    if n >= 10 {
      NatToStringRoundTrip(n / 10);
      assert s[..|s| - 1] == NatToString(n / 10);
    }
  }

  function IntToString(n: int): (r: string)
    ensures r != ""
  {
    if n < 0 then "-" + NatToString(-n) else NatToString(n)
  }
}

/**
 * The string helpers the puzzle solutions lean on: ASCII digits, Python's
 * `str.split(sep)`, `int(...)` and `str(...)` on integers, and prefix and
 * suffix tests.
 */
module Text {
  import opened Wrappers

  predicate IsDigit(c: char) {
    '0' <= c <= '9'
  }

  function DigitValue(c: char): (d: nat)
    requires IsDigit(c)
    ensures d < 10
  {
    (c as int) - ('0' as int)
  }

  function DigitChar(d: nat): (c: char)
    requires d < 10
    ensures IsDigit(c) && DigitValue(c) == d
  {
    (('0' as int) + d) as char
  }

  predicate AllDigits(s: string) {
    forall i | 0 <= i < |s| :: IsDigit(s[i])
  }

  /** Decimal value of a string of digits, most significant digit first. */
  function NatValue(s: string): nat
    requires AllDigits(s)
  {
    if |s| == 0 then 0 else 10 * NatValue(s[..|s| - 1]) + DigitValue(s[|s| - 1])
  }

  /** Python's `str(n)` for a non-negative integer: no leading zeros. */
  function ShowNat(n: nat): (s: string)
    ensures |s| > 0 && AllDigits(s) && NatValue(s) == n
    ensures n < 10 <==> |s| == 1
  {
    if n < 10 then [DigitChar(n)]
    else
      var s := ShowNat(n / 10) + [DigitChar(n % 10)];
      assert s[..|s| - 1] == ShowNat(n / 10);
      s
  }

  /** Python's `str(n)` for any integer. */
  function ShowInt(n: int): string {
    if n < 0 then "-" + ShowNat(-n) else ShowNat(n)
  }

  /**
   * Python's `int(s)`, restricted to an optional minus sign followed by at
   * least one ASCII digit.
   */
  function ParseInt(s: string): (r: Option<int>)
    ensures r.Some? <==>
              (|s| > 0 && AllDigits(s)) || (|s| > 1 && s[0] == '-' && AllDigits(s[1..]))
    ensures r.Some? && |s| > 0 && s[0] != '-' ==> r.value == NatValue(s) >= 0
    ensures r.Some? && |s| > 0 && s[0] == '-' ==> r.value == -(NatValue(s[1..]) as int) <= 0
  {
    if |s| > 1 && s[0] == '-' && AllDigits(s[1..]) then Some(-(NatValue(s[1..]) as int))
    else if |s| > 0 && AllDigits(s) then Some(NatValue(s))
    else None
  }

  lemma ParseShowInt(n: int)
    ensures ParseInt(ShowInt(n)) == Some(n)
    ensures '-' !in ShowInt(n)[1..] && ' ' !in ShowInt(n) && |ShowInt(n)| > 0
  {
    if n < 0 {
      var s := ShowInt(n);
      assert s[1..] == ShowNat(-n);
    }
  }

  /** No digit string holds a character outside '0'..'9'. */
  lemma ShowIntChars(n: int, c: char)
    requires c in ShowInt(n)
    ensures IsDigit(c) || c == '-'
  {
    var s := ShowInt(n);
    var i :| 0 <= i < |s| && s[i] == c;
    if n < 0 && i > 0 {
      assert s[i] == ShowNat(-n)[i - 1];
    }
  }

  predicate StartsWith(s: string, prefix: string) {
    |prefix| <= |s| && s[..|prefix|] == prefix
  }

  predicate EndsWith(s: string, suffix: string) {
    |suffix| <= |s| && s[|s| - |suffix|..] == suffix
  }

  /** Python's `s.removeprefix(p)`. */
  function RemovePrefix(s: string, p: string): (r: string)
    ensures StartsWith(s, p) ==> p + r == s
    ensures !StartsWith(s, p) ==> r == s
  {
    if StartsWith(s, p) then
      assert s == s[..|p|] + s[|p|..];
      s[|p|..]
    else s
  }

  /** Python's `s.removesuffix(p)`. */
  function RemoveSuffix(s: string, p: string): (r: string)
    ensures EndsWith(s, p) ==> r + p == s
    ensures !EndsWith(s, p) ==> r == s
  {
    if EndsWith(s, p) then
      assert s == s[..|s| - |p|] + s[|s| - |p|..];
      s[..|s| - |p|]
    else s
  }

  lemma RemoveFront(p: string, x: string)
    ensures RemovePrefix(p + x, p) == x
  {
    assert (p + x)[..|p|] == p && (p + x)[|p|..] == x;
  }

  lemma RemoveBack(x: string, p: string)
    ensures RemoveSuffix(x + p, p) == x
  {
    assert (x + p)[|x|..] == p && (x + p)[..|x|] == x;
  }

  /** Python's `sep.join(parts)` for a non-empty list of parts. */
  function Join(parts: seq<string>, sep: string): string
    requires |parts| > 0
  {
    if |parts| == 1 then parts[0] else parts[0] + sep + Join(parts[1..], sep)
  }

  /** A character that occurs in no part and not in the separator does not occur in the joined string. */
  lemma {:induction false} JoinAvoids(parts: seq<string>, sep: string, c: char)
    requires |parts| > 0 && c !in sep
    requires forall i | 0 <= i < |parts| :: c !in parts[i]
    ensures c !in Join(parts, sep)
    decreases |parts|
  {
    if |parts| > 1 {
      JoinAvoids(parts[1..], sep, c);
      assert c !in parts[0] + sep;
    }
  }

  /** The joined string ends with the last part. */
  lemma {:induction false} JoinEnd(parts: seq<string>, sep: string)
    requires |parts| > 0
    ensures EndsWith(Join(parts, sep), parts[|parts| - 1])
    decreases |parts|
  {
    if |parts| > 1 {
      JoinEnd(parts[1..], sep);
      var last, j := parts[|parts| - 1], Join(parts[1..], sep);
      assert (parts[0] + sep + j)[|parts[0] + sep + j| - |last|..] == j[|j| - |last|..];
    }
  }

  /**
   * Python's `s.split(sep)`: cut at every occurrence of `sep`, scanning left
   * to right, occurrences not overlapping. Joining the parts again with
   * `sep` restores `s`.
   */
  function SplitOn(s: string, sep: string): (parts: seq<string>)
    requires |sep| > 0
    ensures |parts| > 0 && Join(parts, sep) == s
    decreases |s|
  {
    if |s| < |sep| then [s]
    else if s[..|sep|] == sep then
      var rest := SplitOn(s[|sep|..], sep);
      assert s == sep + s[|sep|..];
      [""] + rest
    else
      var rest := SplitOn(s[1..], sep);
      var parts := [[s[0]] + rest[0]] + rest[1..];
      assert parts[1..] == rest[1..];
      assert s == [s[0]] + s[1..];
      parts
  }

  /** A string in which the separator's first character never occurs is not cut. */
  lemma {:induction false} SplitOnWhole(p: string, sep: string)
    requires |sep| > 0 && sep[0] !in p
    ensures SplitOn(p, sep) == [p]
    decreases |p|
  {
    if |p| >= |sep| {
      assert p[..|sep|][0] == p[0];
      SplitOnWhole(p[1..], sep);
      assert [p[0]] + p[1..] == p;
    }
  }

  /** A string missing any one character of the separator is not cut. */
  lemma {:induction false} SplitOnMissing(p: string, sep: string, k: nat)
    requires k < |sep| && sep[k] !in p
    ensures SplitOn(p, sep) == [p]
    decreases |p|
  {
    if |p| >= |sep| {
      assert p[..|sep|][k] == p[k];
      SplitOnMissing(p[1..], sep, k);
      assert [p[0]] + p[1..] == p;
    }
  }

  /** A part free of the separator's first character is cut off at the separator that follows it. */
  lemma {:induction false} SplitOnFirst(p: string, sep: string, t: string)
    requires |sep| > 0 && sep[0] !in p
    ensures SplitOn(p + sep + t, sep) == [p] + SplitOn(t, sep)
    decreases |p|
  {
    var s := p + sep + t;
    if |p| == 0 {
      assert s == sep + t;
      assert s[..|sep|] == sep && s[|sep|..] == t;
    } else {
      assert s[..|sep|][0] == p[0];
      assert s[1..] == p[1..] + sep + t;
      SplitOnFirst(p[1..], sep, t);
      assert [p[0]] + p[1..] == p;
    }
  }

  /**
   * Splitting undoes joining, as long as no part holds the separator's first
   * character.
   */
  lemma {:induction false} SplitOnJoin(parts: seq<string>, sep: string)
    requires |parts| > 0 && |sep| > 0
    requires forall i | 0 <= i < |parts| :: sep[0] !in parts[i]
    ensures SplitOn(Join(parts, sep), sep) == parts
    decreases |parts|
  {
    if |parts| == 1 {
      SplitOnWhole(parts[0], sep);
    } else {
      SplitOnJoin(parts[1..], sep);
      SplitOnFirst(parts[0], sep, Join(parts[1..], sep));
      assert [parts[0]] + parts[1..] == parts;
    }
  }

  /** Python's `s.replace(pattern, replacement)`: every occurrence, left to right, without overlaps. */
  function Replace(s: string, pattern: string, replacement: string): string
    requires |pattern| > 0
    decreases |s|
  {
    if |s| < |pattern| then s
    else if s[..|pattern|] == pattern then replacement + Replace(s[|pattern|..], pattern, replacement)
    else [s[0]] + Replace(s[1..], pattern, replacement)
  }

  /** An occurrence at the front is replaced, and the scan goes on after it. */
  lemma ReplaceFront(pattern: string, replacement: string, rest: string)
    requires |pattern| > 0
    ensures Replace(pattern + rest, pattern, replacement) == replacement + Replace(rest, pattern, replacement)
  {
    assert (pattern + rest)[..|pattern|] == pattern && (pattern + rest)[|pattern|..] == rest;
  }

  /** Without an occurrence at the front, the first character is kept and the scan goes on from the next. */
  lemma ReplaceKeepsFirst(s: string, pattern: string, replacement: string)
    requires |pattern| > 0 && |s| > 0
    requires |s| >= |pattern| ==> s[..|pattern|] != pattern
    ensures Replace(s, pattern, replacement) == [s[0]] + Replace(s[1..], pattern, replacement)
  {
    if |s| < |pattern| {
      assert [s[0]] + s[1..] == s;
    }
  }

  /** Text free of the pattern's first character holds no occurrence and starts none, so `Replace` copies it unchanged. */
  lemma {:induction false} ReplaceAfter(a: string, b: string, pattern: string, replacement: string)
    requires |pattern| > 0 && pattern[0] !in a
    ensures Replace(a + b, pattern, replacement) == a + Replace(b, pattern, replacement)
    decreases |a|
  {
    if |a| > 0 {
      var s := a + b;
      assert s[0] == a[0] && s[1..] == a[1..] + b;
      if |s| < |pattern| {
        assert Replace(b, pattern, replacement) == b;
      } else {
        assert s[..|pattern|][0] != pattern[0];
        ReplaceAfter(a[1..], b, pattern, replacement);
      }
    } else {
      assert a + b == b;
    }
  }

  /** `int(x)` for every element, failing as soon as one element fails. */
  function ParseInts(parts: seq<string>): (r: Option<seq<int>>)
    ensures r.Some? ==> |r.value| == |parts|
    ensures r.Some? <==> forall i | 0 <= i < |parts| :: ParseInt(parts[i]).Some?
    ensures r.Some? ==> forall i | 0 <= i < |parts| :: ParseInt(parts[i]) == Some(r.value[i])
  {
    if |parts| == 0 then Some([])
    else
      var head, tail := ParseInt(parts[0]), ParseInts(parts[1..]);
      if head.Some? && tail.Some? then Some([head.value] + tail.value)
      else
        assert !head.Some? || !(forall i | 1 <= i < |parts| :: ParseInt(parts[i]).Some?);
        None
  }

  /** The decimal forms of `xs`, element by element. */
  function ShowInts(xs: seq<int>): (r: seq<string>)
    ensures |r| == |xs|
    ensures forall i | 0 <= i < |xs| :: r[i] == ShowInt(xs[i])
  {
    if |xs| == 0 then [] else [ShowInt(xs[0])] + ShowInts(xs[1..])
  }

  lemma ParseShowInts(xs: seq<int>)
    ensures ParseInts(ShowInts(xs)) == Some(xs)
  {
    var parts := ShowInts(xs);
    forall i | 0 <= i < |xs| ensures ParseInt(parts[i]) == Some(xs[i]) {
      ParseShowInt(xs[i]);
    }
    var r := ParseInts(parts);
    assert r.Some?;
    assert forall i | 0 <= i < |xs| :: r.value[i] == xs[i];
    assert r.value == xs;
  }

  /** Integers written in decimal and separated by single spaces: Python's `" ".join(map(str, xs))`. */
  function SpaceSeparated(xs: seq<int>): string
    requires |xs| > 0
  {
    Join(ShowInts(xs), " ")
  }

  /** `[int(t) for t in s.split(" ")]` reads back a space-separated list of integers. */
  lemma ParseSpaceSeparated(xs: seq<int>)
    requires |xs| > 0
    ensures ParseInts(SplitOn(SpaceSeparated(xs), " ")) == Some(xs)
  {
    forall i | 0 <= i < |xs| ensures ' ' !in ShowInts(xs)[i] {
      ParseShowInt(xs[i]);
    }
    SplitOnJoin(ShowInts(xs), " ");
    ParseShowInts(xs);
  }
}

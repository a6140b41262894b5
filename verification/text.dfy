/** ASCII string primitives with the meaning of the Python string operations
    the workflow relies on: `str.strip`, `str.lower`, `str.upper`,
    `str.split`, `str.join`, `str.replace`, `startswith`, `endswith` and
    the substring test `p in s`. */
module Text {
  import opened Wrappers

  /** The characters `str.strip()` removes, restricted to ASCII. */
  const Whitespace: set<char> :=
    {' ', '\t', '\n', '\r', '\U{000B}', '\U{000C}', '\U{001C}', '\U{001D}', '\U{001E}', '\U{001F}'}

  predicate StartsWith(s: string, p: string) {
    |p| <= |s| && s[..|p|] == p
  }

  predicate EndsWith(s: string, p: string) {
    |p| <= |s| && s[|s| - |p|..] == p
  }

  /** `p` occurs in `s` starting at index `i`. */
  predicate OccursAt(s: string, p: string, i: int) {
    0 <= i && i + |p| <= |s| && s[i..i + |p|] == p
  }

  /** Python's `p in s` for strings. */
  predicate Contains(s: string, p: string) {
    exists i :: 0 <= i <= |s| && OccursAt(s, p, i)
  }

  /** `any(w in s for w in words)`. */
  predicate ContainsAny(s: string, words: seq<string>) {
    exists w :: w in words && Contains(s, w)
  }

  lemma PrefixIsContained(s: string, p: string)
    requires StartsWith(s, p)
    ensures Contains(s, p)
  {
    assert OccursAt(s, p, 0);
  }

  lemma ContainsSelf(s: string)
    ensures Contains(s, s)
  {
    assert OccursAt(s, s, 0);
  }

  /** A substring of the left operand stays a substring after appending. */
  lemma ContainsAppendRight(a: string, b: string, p: string)
    requires Contains(a, p)
    ensures Contains(a + b, p)
  {
    var i :| 0 <= i <= |a| && OccursAt(a, p, i);
    assert (a + b)[i..i + |p|] == a[i..i + |p|];
    assert OccursAt(a + b, p, i);
  }

  /** A substring of the right operand stays a substring after prepending. */
  lemma ContainsAppendLeft(a: string, b: string, p: string)
    requires Contains(b, p)
    ensures Contains(a + b, p)
  {
    var i :| 0 <= i <= |b| && OccursAt(b, p, i);
    assert (a + b)[|a| + i..|a| + i + |p|] == b[i..i + |p|];
    assert OccursAt(a + b, p, |a| + i);
  }

  /** A string ending in `p` contains `p`. */
  lemma SuffixIsContained(a: string, p: string)
    ensures Contains(a + p, p)
  {
    ContainsSelf(p);
    ContainsAppendLeft(a, p, p);
  }

  /** What follows a known prefix occurs in the text. */
  lemma ContainedAfterPrefix(s: string, a: string, p: string)
    requires StartsWith(s, a + p)
    ensures Contains(s, p)
  {
    assert s[|a|..|a| + |p|] == (a + p)[|a|..];
    assert OccursAt(s, p, |a|);
  }

  /** Text between a fixed prefix and a fixed suffix is determined by the whole. */
  lemma MiddleDetermined(p: string, a: string, b: string, t: string)
    requires p + a + t == p + b + t
    ensures a == b
  {
    var n := p + a + t;
    assert a == n[|p|..|n| - |t|];
    assert b == (p + b + t)[|p|..|n| - |t|];
  }

  /** A field of fixed width followed by a separator and by a field that cannot contain the
      separator: both fields are determined by the whole text. */
  lemma FieldsBeforeSeparator(p: string, t1: string, t2: string, c: char, a: string, b: string, ra: string, rb: string)
    requires |t1| == |t2| && c !in a && c !in b
    requires p + t1 + [c] + a + [c] + ra == p + t2 + [c] + b + [c] + rb
    ensures t1 == t2 && a == b
  {
    var n := p + t1 + [c] + a + [c] + ra;
    assert t1 == n[|p|..|p| + |t1|];
    assert t2 == (p + t2 + [c] + b + [c] + rb)[|p|..|p| + |t2|];
    assert n == (p + t1 + [c]) + a + [c] + ra;
    assert n == (p + t1 + [c]) + b + [c] + rb;
    FieldBeforeSeparator(p + t1 + [c], a, b, c, ra, rb);
  }

  /** A field that cannot contain its separator is determined by the text it opens. */
  lemma FieldBeforeSeparator(p: string, a: string, b: string, c: char, ra: string, rb: string)
    requires c !in a && c !in b
    requires p + a + [c] + ra == p + b + [c] + rb
    ensures a == b
  {
    var n := p + a + [c] + ra;
    var k := |p|;
    assert n[k + |a|] == c && n[k + |b|] == c;
    assert forall i :: 0 <= i < |a| ==> n[k + i] == a[i];
    assert forall i :: 0 <= i < |b| ==> n[k + i] == b[i];
    assert |a| == |b|;
    assert a == n[k..k + |a|];
  }

  // ---------------------------------------------------------------------------
  // Case mapping and character classes (ASCII)

  function LowerChar(c: char): char {
    if 'A' <= c <= 'Z' then (c as int + 32) as char else c
  }

  function UpperChar(c: char): char {
    if 'a' <= c <= 'z' then (c as int - 32) as char else c
  }

  /** `s.lower()`. */
  function Lower(s: string): (r: string)
    ensures |r| == |s|
    ensures forall i :: 0 <= i < |s| ==> r[i] == LowerChar(s[i])
  {
    seq(|s|, i requires 0 <= i < |s| => LowerChar(s[i]))
  }

  /** `s.upper()`. */
  function Upper(s: string): (r: string)
    ensures |r| == |s|
    ensures forall i :: 0 <= i < |s| ==> r[i] == UpperChar(s[i])
  {
    seq(|s|, i requires 0 <= i < |s| => UpperChar(s[i]))
  }

  /** `c.isalnum()`. */
  predicate IsAlnum(c: char) {
    'a' <= c <= 'z' || 'A' <= c <= 'Z' || '0' <= c <= '9'
  }

  lemma LowerAppend(a: string, b: string)
    ensures Lower(a + b) == Lower(a) + Lower(b)
  {
    assert forall i :: 0 <= i < |a + b| ==> Lower(a + b)[i] == (Lower(a) + Lower(b))[i];
  }

  lemma LowerIdempotent(s: string)
    ensures Lower(Lower(s)) == Lower(s)
  {
    assert forall i :: 0 <= i < |s| ==> Lower(Lower(s))[i] == Lower(s)[i];
  }

  /** Lower-casing forgets any earlier upper-casing. */
  lemma LowerOfUpper(s: string)
    ensures Lower(Upper(s)) == Lower(s)
  {
    assert forall i :: 0 <= i < |s| ==> Lower(Upper(s))[i] == Lower(s)[i];
  }

  // ---------------------------------------------------------------------------
  // Stripping

  /** `s.lstrip(cs)`: drops the longest prefix made of characters in `cs`. */
  function LStrip(s: string, cs: set<char>): (r: string)
    ensures |r| <= |s| && r == s[|s| - |r|..]
    ensures forall i :: 0 <= i < |s| - |r| ==> s[i] in cs
    ensures r == [] || r[0] !in cs
    decreases |s|
  {
    if |s| > 0 && s[0] in cs then
      var t := LStrip(s[1..], cs);
      assert s[1..][|s| - 1 - |t|..] == s[|s| - |t|..];
      assert forall i :: 1 <= i < |s| - |t| ==> s[i] == s[1..][i - 1];
      t
    else s
  }

  /** `s.rstrip(cs)`: drops the longest suffix made of characters in `cs`. */
  function RStrip(s: string, cs: set<char>): (r: string)
    ensures |r| <= |s| && r == s[..|r|]
    ensures forall i :: |r| <= i < |s| ==> s[i] in cs
    ensures r == [] || r[|r| - 1] !in cs
    decreases |s|
  {
    if |s| > 0 && s[|s| - 1] in cs then RStrip(s[..|s| - 1], cs) else s
  }

  /** `s.strip(cs)`. */
  function StripChars(s: string, cs: set<char>): string {
    RStrip(LStrip(s, cs), cs)
  }

  /** `s.strip()`. */
  function Strip(s: string): string {
    StripChars(s, Whitespace)
  }

  /** A string with no strippable character at either end is its own strip. */
  lemma StripCharsNoop(s: string, cs: set<char>)
    requires s == [] || (s[0] !in cs && s[|s| - 1] !in cs)
    ensures StripChars(s, cs) == s
  {
  }

  /** Stripping starts with the first character outside `cs`. */
  lemma StripCharsFirst(s: string, cs: set<char>)
    requires |s| > 0 && s[0] !in cs
    ensures StripChars(s, cs) == RStrip(s, cs)
    ensures |StripChars(s, cs)| > 0 && StripChars(s, cs)[0] == s[0]
  {
  }

  // ---------------------------------------------------------------------------
  // Searching

  /** Index of the first `c` in `s`. */
  function IndexOfChar(s: string, c: char): (r: Option<nat>)
    ensures r.None? <==> c !in s
    ensures r.Some? ==> r.value < |s| && s[r.value] == c && c !in s[..r.value]
    decreases |s|
  {
    if |s| == 0 then None
    else if s[0] == c then Some(0)
    else match IndexOfChar(s[1..], c)
      case None => None
      case Some(i) => assert s[1..][..i] == s[1..i + 1]; Some(i + 1)
  }

  /** `s.find(p, start)`: the first occurrence of `p` at or after `start`. */
  function IndexOf(s: string, p: string, start: nat): (r: Option<nat>)
    ensures r.Some? ==> start <= r.value && OccursAt(s, p, r.value)
    ensures r.Some? ==> forall j :: start <= j < r.value ==> !OccursAt(s, p, j)
    ensures r.None? ==> forall j :: start <= j ==> !OccursAt(s, p, j)
    decreases |s| - start
  {
    if start + |p| > |s| then None
    else if OccursAt(s, p, start) then Some(start)
    else IndexOf(s, p, start + 1)
  }

  /** `s.split(c, 1)[1]`, the text after the first `c` (empty when there is none). */
  function AfterFirst(s: string, c: char): (r: string)
    ensures c in s ==> exists i :: 0 <= i < |s| && s[i] == c && c !in s[..i] && r == s[i + 1..]
  {
    match IndexOfChar(s, c)
    case None => ""
    case Some(i) => s[i + 1..]
  }

  /** `s.split(c, 1)[0]`, the text before the first `c` (all of `s` when there is none). */
  function BeforeFirst(s: string, c: char): (r: string)
    ensures c !in r
    ensures StartsWith(s, r)
    ensures |r| < |s| ==> s[|r|] == c
  {
    match IndexOfChar(s, c)
    case None => s
    case Some(i) => s[..i]
  }

  // ---------------------------------------------------------------------------
  // Splitting and joining on one separator character

  /** `sep.join(parts)`. */
  function Join(parts: seq<string>, sep: char): string
    decreases |parts|
  {
    if |parts| == 0 then ""
    else if |parts| == 1 then parts[0]
    else parts[0] + [sep] + Join(parts[1..], sep)
  }

  /** `s.split(sep)`: the separator-free pieces whose join is `s`. */
  function Split(s: string, sep: char): (parts: seq<string>)
    ensures |parts| >= 1
    ensures forall i :: 0 <= i < |parts| ==> sep !in parts[i]
    ensures Join(parts, sep) == s
    decreases |s|
  {
    match IndexOfChar(s, sep)
    case None => [s]
    case Some(i) =>
      var rest := Split(s[i + 1..], sep);
      assert ([s[..i]] + rest)[1..] == rest;
      assert s == s[..i] + [sep] + s[i + 1..];
      [s[..i]] + rest
  }

  /** Splitting undoes joining separator-free pieces. */
  lemma {:induction false} SplitJoin(parts: seq<string>, sep: char)
    requires |parts| >= 1
    requires forall i :: 0 <= i < |parts| ==> sep !in parts[i]
    ensures Split(Join(parts, sep), sep) == parts
    decreases |parts|
  {
    if |parts| == 1 {
      assert sep !in parts[0];
    } else {
      var tail := parts[1..];
      var s := Join(parts, sep);
      assert s == parts[0] + [sep] + Join(tail, sep);
      assert s[..|parts[0]|] == parts[0];
      assert IndexOfChar(s, sep) == Some(|parts[0]|) by {
        var k := IndexOfChar(s, sep).value;
        assert s[|parts[0]|] == sep;
        assert forall j :: 0 <= j < |parts[0]| ==> s[j] == parts[0][j];
      }
      assert s[|parts[0]| + 1..] == Join(tail, sep);
      SplitJoin(tail, sep);
      assert parts == [parts[0]] + tail;
    }
  }

  /** Stripping keeps a prefix that starts and ends outside `cs`. */
  lemma StripCharsKeepsPrefix(s: string, cs: set<char>, p: string)
    requires |p| > 0 && StartsWith(s, p) && p[0] !in cs && p[|p| - 1] !in cs
    ensures StartsWith(StripChars(s, cs), p)
  {
    assert s[0] == p[0] && s[|p| - 1] == p[|p| - 1];
    assert LStrip(s, cs) == s;
    var r := RStrip(s, cs);
    assert |r| >= |p|;
    assert r[..|p|] == s[..|p|];
  }

  /** A character absent from a text is absent from what stripping leaves of it. */
  lemma StripKeepsOut(s: string, cs: set<char>, c: char)
    requires c !in s
    ensures c !in LStrip(s, cs) && c !in RStrip(s, cs) && c !in StripChars(s, cs)
  {
    LStripKeepsOut(s, cs, c);
    RStripKeepsOut(s, cs, c);
    RStripKeepsOut(LStrip(s, cs), cs, c);
  }

  lemma {:induction false} LStripKeepsOut(s: string, cs: set<char>, c: char)
    requires c !in s
    ensures c !in LStrip(s, cs)
    decreases |s|
  {
    if |s| > 0 && s[0] in cs {
      assert s == [s[0]] + s[1..];
      LStripKeepsOut(s[1..], cs, c);
    }
  }

  lemma RStripKeepsOut(s: string, cs: set<char>, c: char)
    requires c !in s
    ensures c !in RStrip(s, cs)
  {
    var r := RStrip(s, cs);
    assert forall i :: 0 <= i < |r| ==> r[i] == s[i];
  }

  // ---------------------------------------------------------------------------
  // Splitting and joining on a separator string

  /** `sep.join(parts)` for a separator string. */
  function JoinOn(parts: seq<string>, sep: string): string
    decreases |parts|
  {
    if |parts| == 0 then ""
    else if |parts| == 1 then parts[0]
    else parts[0] + sep + JoinOn(parts[1..], sep)
  }

  /** An occurrence inside a prefix is an occurrence in the whole text. */
  lemma OccursInPrefix(s: string, p: string, i: nat, j: int)
    requires i <= |s| && OccursAt(s[..i], p, j)
    ensures OccursAt(s, p, j) && j + |p| <= i
  {
    assert s[..i][j..j + |p|] == s[j..j + |p|];
  }

  /** `s.split(pat)`: the pieces between the non-overlapping occurrences of `pat`,
      found left to right; no piece holds `pat` and joining them with `pat` gives `s`.
      `SplitOnCuts` pins where the cuts fall. */
  function SplitOn(s: string, pat: string): (parts: seq<string>)
    requires |pat| > 0
    ensures |parts| >= 1
    ensures forall k :: 0 <= k < |parts| ==> !Contains(parts[k], pat)
    ensures JoinOn(parts, pat) == s
    decreases |s|
  {
    match IndexOf(s, pat, 0)
    case None =>
      assert forall j :: 0 <= j <= |s| ==> !OccursAt(s, pat, j);
      [s]
    case Some(i) =>
      var rest := SplitOn(s[i + |pat|..], pat);
      assert !Contains(s[..i], pat) by {
        forall j | 0 <= j <= i && OccursAt(s[..i], pat, j) ensures false {
          OccursInPrefix(s, pat, i, j);
        }
      }
      assert ([s[..i]] + rest)[1..] == rest;
      assert s == s[..i] + pat + s[i + |pat|..];
      [s[..i]] + rest
  }

  /** Where `SplitOn` cuts: there is one piece exactly when the pattern does not occur;
      otherwise the first cut is at the leftmost occurrence and the later pieces are the
      split of the text after it. This fixes every piece, so an overlapping pattern
      (`"aaa"` on `"aa"`) is cut as Python cuts it. */
  lemma SplitOnCuts(s: string, pat: string)
    requires |pat| > 0
    ensures var parts := SplitOn(s, pat);
      && (|parts| == 1 <==> IndexOf(s, pat, 0).None?)
      && (|parts| == 1 ==> forall j :: 0 <= j <= |s| ==> !OccursAt(s, pat, j))
      && (|parts| >= 2 ==> IndexOf(s, pat, 0) == Some(|parts[0]|))
      && (|parts| >= 2 ==> OccursAt(s, pat, |parts[0]|) && forall j :: 0 <= j < |parts[0]| ==> !OccursAt(s, pat, j))
      && (|parts| >= 2 ==> |parts[0]| + |pat| <= |s| && parts[1..] == SplitOn(s[|parts[0]| + |pat|..], pat))
  {
    var parts := SplitOn(s, pat);
    match IndexOf(s, pat, 0)
    case None =>
    case Some(i) =>
      var rest := SplitOn(s[i + |pat|..], pat);
      assert parts == [s[..i]] + rest;
      assert parts[1..] == rest && |parts[0]| == i;
  }

  // ---------------------------------------------------------------------------
  // Replacement

  /** `s.replace(pat, rep)`: every non-overlapping occurrence, left to right. */
  function ReplaceAll(s: string, pat: string, rep: string): (r: string)
    requires |pat| > 0
    ensures !Contains(s, pat) ==> r == s
    ensures forall i :: IndexOf(s, pat, 0) == Some(i) ==> StartsWith(r, s[..i] + rep)
    decreases |s|
  {
    match IndexOf(s, pat, 0)
    case None =>
      assert forall i :: 0 <= i <= |s| ==> !OccursAt(s, pat, i);
      s
    case Some(i) =>
      var r := s[..i] + rep + ReplaceAll(s[i + |pat|..], pat, rep);
      assert r[..|s[..i] + rep|] == s[..i] + rep;
      r
  }

  /** `s.replace(pat, rep)` is `rep.join(s.split(pat))`: the text between the occurrences
      is kept and each occurrence becomes `rep`. */
  lemma {:induction false} ReplaceIsSplitJoin(s: string, pat: string, rep: string)
    requires |pat| > 0
    ensures ReplaceAll(s, pat, rep) == JoinOn(SplitOn(s, pat), rep)
    decreases |s|
  {
    match IndexOf(s, pat, 0)
    case None =>
    case Some(i) =>
      var tail := s[i + |pat|..];
      ReplaceIsSplitJoin(tail, pat, rep);
      var parts := [s[..i]] + SplitOn(tail, pat);
      assert SplitOn(s, pat) == parts;
      assert parts[1..] == SplitOn(tail, pat);
  }

  // ---------------------------------------------------------------------------
  // Decimal numerals

  /** The digit character for `d`. */
  function DigitChar(d: nat): char
    requires d < 10
  {
    ('0' as int + d) as char
  }

  /** A character from `0` to `9`. */
  predicate IsDigit(c: char) {
    '0' <= c <= '9'
  }

  /** `str(n)` for a natural number: its decimal digits, most significant first. */
  function Decimal(n: nat): (r: string)
    ensures |r| >= 1
    ensures forall i :: 0 <= i < |r| ==> IsDigit(r[i])
    decreases n
  {
    if n < 10 then [DigitChar(n)] else Decimal(n / 10) + [DigitChar(n % 10)]
  }

  /** `int(s)` for a string of decimal digits. */
  function DecimalValue(s: string): nat
    requires forall i :: 0 <= i < |s| ==> IsDigit(s[i])
    decreases |s|
  {
    if |s| == 0 then 0
    else
      assert IsDigit(s[|s| - 1]);
      DecimalValue(s[..|s| - 1]) * 10 + (s[|s| - 1] as int - '0' as int)
  }

  /** Reading a numeral back gives its number, so different numbers have different numerals. */
  lemma {:induction false} DecimalRoundTrip(n: nat)
    ensures DecimalValue(Decimal(n)) == n
    decreases n
  {
    if n >= 10 {
      var s := Decimal(n);
      DecimalRoundTrip(n / 10);
      assert s[..|s| - 1] == Decimal(n / 10);
    }
  }
}

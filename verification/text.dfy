/** The handful of .NET string operations the core relies on, over `string` = `seq<char>`.
    Comparisons are ordinal; culture-sensitive matching is not modelled. */
module Text {
  import opened Wrappers

  predicate StartsWith(s: string, prefix: string) {
    |prefix| <= |s| && s[..|prefix|] == prefix
  }

  predicate EndsWith(s: string, suffix: string) {
    |suffix| <= |s| && s[|s| - |suffix|..] == suffix
  }

  /** `char.IsWhiteSpace`: the Unicode space separators plus the control characters it admits. */
  predicate IsWhiteSpace(c: char) {
    || c in {' ', '\t', '\n', '\U{000B}', '\U{000C}', '\r', '\U{0085}', '\U{00A0}', '\U{1680}'}
    || ('\U{2000}' <= c <= '\U{200A}')
    || c in {'\U{2028}', '\U{2029}', '\U{202F}', '\U{205F}', '\U{3000}'}
  }

  predicate IsNul(c: char) {
    c == '\0'
  }

  /** `string.IsNullOrWhiteSpace`. */
  predicate IsNullOrWhiteSpace(s: Option<string>) {
    s.None? || forall i :: 0 <= i < |s.value| ==> IsWhiteSpace(s.value[i])
  }

  /** Length of the longest prefix whose characters all satisfy `drop`. */
  function LeadingCount(s: string, drop: char -> bool): (n: nat)
    ensures n <= |s|
    ensures forall i :: 0 <= i < n ==> drop(s[i])
    ensures n == |s| || !drop(s[n])
  {
    if |s| > 0 && drop(s[0]) then 1 + LeadingCount(s[1..], drop) else 0
  }

  /** Length of the longest suffix whose characters all satisfy `drop`. */
  function TrailingCount(s: string, drop: char -> bool): (n: nat)
    ensures n <= |s|
    ensures forall i :: |s| - n <= i < |s| ==> drop(s[i])
    ensures n == |s| || !drop(s[|s| - n - 1])
  {
    if |s| > 0 && drop(s[|s| - 1]) then 1 + TrailingCount(s[..|s| - 1], drop) else 0
  }

  /** Drops the longest prefix whose characters all satisfy `drop`. */
  function TrimStart(s: string, drop: char -> bool): string {
    s[LeadingCount(s, drop)..]
  }

  /** Drops the longest suffix whose characters all satisfy `drop`. */
  function TrimEnd(s: string, drop: char -> bool): string {
    s[..|s| - TrailingCount(s, drop)]
  }

  /** `string.Trim()` when `drop` is `IsWhiteSpace`, `string.Trim(c)` for a single character. */
  function Trim(s: string, drop: char -> bool): (r: string)
    ensures |r| == 0 || (!drop(r[0]) && !drop(r[|r| - 1]))
    ensures var a := LeadingCount(s, drop);
      && a + |r| <= |s| && r == s[a..a + |r|]
      && (forall i :: 0 <= i < a ==> drop(s[i]))
      && (forall i :: a + |r| <= i < |s| ==> drop(s[i]))
  {
    var a := LeadingCount(s, drop);
    var head := TrimStart(s, drop);
    var r := TrimEnd(head, drop);
    assert head == s[a..];
    assert r == s[a..a + |r|];
    assert forall i :: a + |r| <= i < |s| ==> s[i] == head[i - a];
    r
  }

  /** The source's `Trim().Trim((char)0)`: whitespace first, then NUL characters. */
  function Clean(s: string): (r: string)
    ensures |r| <= |s|
    ensures |r| == 0 || (!IsNul(r[0]) && !IsNul(r[|r| - 1]))
  {
    Trim(Trim(s, IsWhiteSpace), IsNul)
  }

  /** Trimming a string that neither starts nor ends with a dropped character changes nothing. */
  lemma TrimKeeps(s: string, drop: char -> bool)
    requires |s| == 0 || (!drop(s[0]) && !drop(s[|s| - 1]))
    ensures Trim(s, drop) == s
  {
    assert LeadingCount(s, drop) == 0;
    assert TrailingCount(s, drop) == 0;
  }

  /** A string with no whitespace or NUL at either end is already clean. */
  lemma CleanPlain(s: string)
    requires |s| == 0 || (!IsWhiteSpace(s[0]) && !IsWhiteSpace(s[|s| - 1]))
    requires |s| == 0 || (!IsNul(s[0]) && !IsNul(s[|s| - 1]))
    ensures Clean(s) == s
  {
    TrimKeeps(s, IsWhiteSpace);
    TrimKeeps(s, IsNul);
  }

  /** Whitespace hidden behind a NUL survives the cleaning: the two trims run once each, in order. */
  lemma CleanKeepsWhitespaceBehindNul()
    ensures Clean("\0 a") == " a"
  {
    var s := "\0 a";
    assert !IsWhiteSpace(s[0]) && !IsWhiteSpace(s[2]);
    assert LeadingCount(s, IsWhiteSpace) == 0;
    assert TrailingCount(s, IsWhiteSpace) == 0;
    assert Trim(s, IsWhiteSpace) == s;
    assert LeadingCount(s, IsNul) == 1 by {
      assert s[1..] == " a";
      assert LeadingCount(s[1..], IsNul) == 0;
    }
    assert TrailingCount(s[1..], IsNul) == 0;
  }

  /** Number of occurrences of `c` in `s`. */
  function Count(s: string, c: char): nat {
    if |s| == 0 then 0 else (if s[0] == c then 1 else 0) + Count(s[1..], c)
  }

  /** `string.Split(char)`: the maximal separator-free pieces, empty ones included. */
  function Split(s: string, sep: char): (parts: seq<string>)
    ensures |parts| >= 1
    ensures forall i :: 0 <= i < |parts| ==> sep !in parts[i]
  {
    if |s| == 0 then [""]
    else
      var rest := Split(s[1..], sep);
      if s[0] == sep then [""] + rest
      else [[s[0]] + rest[0]] + rest[1..]
  }

  /** `string.Join(sep, parts)`: the inverse of `Split`. */
  function Join(parts: seq<string>, sep: char): string
    requires |parts| >= 1
  {
    if |parts| == 1 then parts[0] else parts[0] + [sep] + Join(parts[1..], sep)
  }

  /** Splitting yields one more piece than there are separators. */
  lemma {:induction false} SplitLength(s: string, sep: char)
    ensures |Split(s, sep)| == Count(s, sep) + 1
  {
    if |s| > 0 {
      SplitLength(s[1..], sep);
    }
  }

  /** Joining the pieces back with the separator restores the string. */
  lemma {:induction false} JoinSplit(s: string, sep: char)
    ensures Join(Split(s, sep), sep) == s
  {
    if |s| > 0 {
      var rest := Split(s[1..], sep);
      JoinSplit(s[1..], sep);
      if s[0] == sep {
        assert Split(s, sep)[1..] == rest;
      } else {
        var parts := Split(s, sep);
        if |rest| == 1 {
          assert parts == [[s[0]] + rest[0]];
        } else {
          assert parts[1..] == rest[1..];
          assert Join(rest, sep) == rest[0] + [sep] + Join(rest[1..], sep);
        }
      }
    }
  }

  /** A separator-free head splits off as the first piece. */
  lemma {:induction false} SplitCons(head: string, sep: char, rest: string)
    requires sep !in head
    ensures Split(head + [sep] + rest, sep) == [head] + Split(rest, sep)
  {
    if |head| == 0 {
      assert head + [sep] + rest == [sep] + rest;
      assert ([sep] + rest)[1..] == rest;
    } else {
      var s := head + [sep] + rest;
      assert s[0] == head[0];
      assert s[1..] == head[1..] + [sep] + rest;
      SplitCons(head[1..], sep, rest);
      assert [head[0]] + head[1..] == head;
    }
  }

  /** A string without the separator is one piece. */
  lemma {:induction false} SplitWhole(s: string, sep: char)
    requires sep !in s
    ensures Split(s, sep) == [s]
  {
    if |s| > 0 {
      SplitWhole(s[1..], sep);
      assert [s[0]] + s[1..] == s;
    }
  }

  /** `k` copies of `unit`, back to back. */
  function Repeat(unit: string, k: nat): (r: string)
    ensures |r| == k * |unit|
  {
    if k == 0 then "" else unit + Repeat(unit, k - 1)
  }

  function UpperAscii(c: char): char {
    if 'a' <= c <= 'z' then (c as int - 32) as char else c
  }

  /** Case-insensitive equality, folding ASCII letters only. */
  predicate EqualsIgnoreCase(a: string, b: string) {
    |a| == |b| && forall i :: 0 <= i < |a| ==> UpperAscii(a[i]) == UpperAscii(b[i])
  }
}

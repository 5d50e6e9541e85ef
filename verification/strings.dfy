/** The handful of Python `str` operations the configuration engine relies on,
    written out over `seq<char>`: substring search (`in`), `split`, `join`,
    `replace`, `count`, `strip`, `lower`, `isnumeric`, `int(...)` and `str(int)`.

    Every separator-based operation follows Python's rule of scanning left to
    right and cutting at non-overlapping occurrences.
 */
module Strings {

  predicate StartsWith(s: string, prefix: string)
  {
    |prefix| <= |s| && s[..|prefix|] == prefix
  }

  predicate EndsWith(s: string, suffix: string)
  {
    |suffix| <= |s| && s[|s| - |suffix|..] == suffix
  }

  /** Python's `needle in s` for strings: some position of `s` starts `needle`. */
  predicate Contains(s: string, needle: string)
    decreases |s|
  {
    StartsWith(s, needle) || (|s| > 0 && Contains(s[1..], needle))
  }

  /** No character of `s` occurs in `chars`. */
  predicate Avoids(s: string, chars: string)
  {
    forall i :: 0 <= i < |s| ==> s[i] !in chars
  }

  /** Python's `s.split(sep)` for a non-empty separator. */
  function Split(s: string, sep: string): (parts: seq<string>)
    requires |sep| > 0
    ensures |parts| >= 1
    decreases |s|
  {
    if |s| == 0 then [""]
    else if StartsWith(s, sep) then [""] + Split(s[|sep|..], sep)
    else
      var rest := Split(s[1..], sep);
      [[s[0]] + rest[0]] + rest[1..]
  }

  /** Python's `sep.join(parts)`. */
  function Join(parts: seq<string>, sep: string): string
  {
    if |parts| == 0 then ""
    else if |parts| == 1 then parts[0]
    else parts[0] + sep + Join(parts[1..], sep)
  }

  /** Python's `s.replace(pattern, replacement)` for a non-empty pattern. */
  function Replace(s: string, pattern: string, replacement: string): string
    requires |pattern| > 0
    decreases |s|
  {
    if |s| == 0 then ""
    else if StartsWith(s, pattern) then replacement + Replace(s[|pattern|..], pattern, replacement)
    else [s[0]] + Replace(s[1..], pattern, replacement)
  }

  lemma StartsWithPrefixOf(s: string, t: string, p: string)
    requires StartsWith(s, p)
    requires StartsWith(t, s)
    ensures StartsWith(t, p)
  {
  }

  /** Joining the pieces of a split with the same separator gives the input back. */
  lemma {:induction false} JoinSplit(s: string, sep: string)
    requires |sep| > 0
    ensures Join(Split(s, sep), sep) == s
    decreases |s|
  {
    if |s| == 0 {
    } else if StartsWith(s, sep) {
      JoinSplit(s[|sep|..], sep);
      JoinConsEmpty(Split(s[|sep|..], sep), sep);
      assert s == sep + s[|sep|..];
    } else {
      JoinSplit(s[1..], sep);
      JoinConsHead(s[0], Split(s[1..], sep), sep);
      assert s == [s[0]] + s[1..];
    }
  }

  /** An empty first piece puts a separator in front of the join. */
  lemma JoinConsEmpty(rest: seq<string>, sep: string)
    requires |rest| >= 1
    ensures Join([""] + rest, sep) == sep + Join(rest, sep)
  {
  }

  /** Prepending a character to the first piece prepends it to the join. */
  lemma JoinConsHead(c: char, rest: seq<string>, sep: string)
    requires |rest| >= 1
    ensures Join([[c] + rest[0]] + rest[1..], sep) == [c] + Join(rest, sep)
  {
  }

  /** The first piece of a split is a prefix of the input. */
  lemma {:induction false} FirstPieceIsPrefix(s: string, sep: string)
    requires |sep| > 0
    ensures StartsWith(s, Split(s, sep)[0])
    decreases |s|
  {
    if |s| > 0 && !StartsWith(s, sep) {
      var first := Split(s[1..], sep)[0];
      FirstPieceIsPrefix(s[1..], sep);
      SplitConsHead(s, sep);
      assert s[..1 + |first|] == [s[0]] + s[1..][..|first|];
    }
  }

  lemma {:induction false} ContainsShift(s: string, needle: string)
    requires |s| > 0
    requires !StartsWith(s, needle)
    ensures Contains(s, needle) == Contains(s[1..], needle)
  {
  }

  /** A string without any occurrence of the separator splits into itself. */
  lemma {:induction false} SplitAbsent(s: string, sep: string)
    requires |sep| > 0
    requires !Contains(s, sep)
    ensures Split(s, sep) == [s]
    decreases |s|
  {
    if |s| > 0 {
      SplitAbsent(s[1..], sep);
      assert s == [s[0]] + s[1..];
    }
  }

  /** No piece of a split contains the separator. */
  lemma {:induction false} SplitPiecesAvoidSeparator(s: string, sep: string)
    requires |sep| > 0
    ensures forall i :: 0 <= i < |Split(s, sep)| ==> !Contains(Split(s, sep)[i], sep)
    decreases |s|
  {
    if |s| == 0 {
      assert !StartsWith("", sep);
    } else if StartsWith(s, sep) {
      SplitPiecesAvoidSeparator(s[|sep|..], sep);
      assert !StartsWith("", sep);
    } else {
      var rest := Split(s[1..], sep);
      SplitPiecesAvoidSeparator(s[1..], sep);
      var head := [s[0]] + rest[0];
      FirstPieceIsPrefix(s[1..], sep);
      assert StartsWith(s, head) by {
        assert s == [s[0]] + s[1..];
        assert s[..|head|] == [s[0]] + s[1..][..|rest[0]|];
      }
      if StartsWith(head, sep) {
        StartsWithPrefixOf(head, s, sep);
      }
      assert head[1..] == rest[0];
      assert !Contains(head, sep);
      var parts := [head] + rest[1..];
      forall i | 0 <= i < |parts|
        ensures !Contains(parts[i], sep)
      {
        if i > 0 {
          assert parts[i] == rest[i];
        }
      }
    }
  }

  /** Splitting `p + sep + rest` cuts exactly after `p` when no character of
      `p` occurs in the separator. */
  lemma {:induction false} SplitAfterPiece(p: string, sep: string, rest: string)
    requires |sep| > 0
    requires Avoids(p, sep)
    ensures Split(p + sep + rest, sep) == [p] + Split(rest, sep)
    decreases |p|
  {
    var s := p + sep + rest;
    if |p| == 0 {
      assert s == sep + rest;
      assert s[|sep|..] == rest;
    } else {
      assert s[0] == p[0] && p[0] !in sep;
      NotStartsWith(s, sep);
      assert Avoids(p[1..], sep);
      SplitAfterPiece(p[1..], sep, rest);
      assert s[1..] == p[1..] + sep + rest;
      SplitConsHead(s, sep);
      assert [s[0]] + p[1..] == p;
    }
  }

  /** A string whose first character does not occur in the separator does
      not start with it. */
  lemma NotStartsWith(s: string, sep: string)
    requires |s| > 0 && |sep| > 0 && s[0] !in sep
    ensures !StartsWith(s, sep)
  {
  }

  /** Splitting a string that does not start with the separator extends the
      first piece of the rest by the first character. */
  lemma SplitConsHead(s: string, sep: string)
    requires |s| > 0 && |sep| > 0 && !StartsWith(s, sep)
    ensures Split(s, sep) == [[s[0]] + Split(s[1..], sep)[0]] + Split(s[1..], sep)[1..]
  {
  }

  lemma AvoidsMeansAbsent(s: string, sep: string)
    requires |sep| > 0
    requires Avoids(s, sep)
    ensures !Contains(s, sep)
    decreases |s|
  {
    if |s| > 0 {
      assert sep[0] in sep;
      assert !StartsWith(s, sep) by {
        if |sep| <= |s| {
          assert s[..|sep|][0] != sep[0];
        }
      }
      assert Avoids(s[1..], sep);
      AvoidsMeansAbsent(s[1..], sep);
    }
  }

  /** Splitting a join recovers the pieces when no piece shares a character
      with the separator. */
  lemma {:induction false} SplitJoin(parts: seq<string>, sep: string)
    requires |sep| > 0
    requires |parts| >= 1
    requires forall i :: 0 <= i < |parts| ==> Avoids(parts[i], sep)
    ensures Split(Join(parts, sep), sep) == parts
    decreases |parts|
  {
    if |parts| == 1 {
      AvoidsMeansAbsent(parts[0], sep);
      SplitAbsent(parts[0], sep);
    } else {
      SplitJoin(parts[1..], sep);
      SplitAfterPiece(parts[0], sep, Join(parts[1..], sep));
      assert parts == [parts[0]] + parts[1..];
    }
  }

  /** `replace` is `split` followed by `join` with the replacement, so every
      occurrence found by the split is substituted. */
  lemma {:induction false} ReplaceIsSplitJoin(s: string, pattern: string, replacement: string)
    requires |pattern| > 0
    ensures Replace(s, pattern, replacement) == Join(Split(s, pattern), replacement)
    decreases |s|
  {
    if |s| == 0 {
    } else if StartsWith(s, pattern) {
      ReplaceIsSplitJoin(s[|pattern|..], pattern, replacement);
      JoinConsEmpty(Split(s[|pattern|..], pattern), replacement);
    } else {
      ReplaceIsSplitJoin(s[1..], pattern, replacement);
      SplitConsHead(s, pattern);
      JoinConsHead(s[0], Split(s[1..], pattern), replacement);
    }
  }

  /** A string without the pattern is left alone by `replace`. */
  lemma ReplaceAbsent(s: string, pattern: string, replacement: string)
    requires |pattern| > 0
    requires !Contains(s, pattern)
    ensures Replace(s, pattern, replacement) == s
  {
  }

  /** A string that starts with the pattern, once, has that occurrence
      replaced. */
  lemma ReplaceLeading(pattern: string, rest: string, replacement: string)
    requires |pattern| > 0
    requires !Contains(rest, pattern)
    ensures Replace(pattern + rest, pattern, replacement) == replacement + rest
  {
    var s := pattern + rest;
    assert s[..|pattern|] == pattern;
    assert s[|pattern|..] == rest;
    ReplaceAbsent(rest, pattern, replacement);
  }

  /** Text without the pattern's first character passes through `replace`
      untouched, whatever follows it. */
  lemma {:induction false} ReplaceSkips(p: string, rest: string, pattern: string, replacement: string)
    requires |pattern| > 0 && pattern[0] !in p
    ensures Replace(p + rest, pattern, replacement) == p + Replace(rest, pattern, replacement)
    decreases |p|
  {
    if |p| > 0 {
      var s := p + rest;
      assert s[0] == p[0];
      assert !StartsWith(s, pattern) by {
        if |pattern| <= |s| {
          assert s[..|pattern|][0] == s[0];
        }
      }
      assert s[1..] == p[1..] + rest;
      ReplaceSkips(p[1..], rest, pattern, replacement);
      var r := Replace(rest, pattern, replacement);
      assert Replace(s, pattern, replacement) == [p[0]] + (p[1..] + r);
      assert [p[0]] + (p[1..] + r) == ([p[0]] + p[1..]) + r;
      assert [p[0]] + p[1..] == p;
    } else {
      assert p + rest == rest;
    }
  }

  /** Index of the first occurrence of `c`, or `|s|` when there is none. */
  function IndexOf(s: string, c: char): (i: nat)
    ensures i <= |s|
    ensures i < |s| ==> s[i] == c
    ensures forall j :: 0 <= j < i ==> s[j] != c
    decreases |s|
  {
    if |s| == 0 then 0
    else if s[0] == c then 0
    else 1 + IndexOf(s[1..], c)
  }

  /** Python's `s.count(c)` for a one-character argument. */
  function Count(s: string, c: char): (n: nat)
    ensures n <= |s|
    ensures n == 0 <==> c !in s
    decreases |s|
  {
    if |s| == 0 then 0
    else (if s[0] == c then 1 else 0) + Count(s[1..], c)
  }

  /** The first `c` is at `i` when `s[i]` is `c` and no earlier character is. */
  lemma {:induction false} IndexOfFirst(s: string, c: char, i: nat)
    requires i < |s| && s[i] == c
    requires forall j :: 0 <= j < i ==> s[j] != c
    ensures IndexOf(s, c) == i
    decreases i
  {
  }

  /** `count` adds up over a concatenation. */
  lemma {:induction false} CountConcat(a: string, b: string, c: char)
    ensures Count(a + b, c) == Count(a, c) + Count(b, c)
    decreases |a|
  {
    if |a| > 0 {
      assert (a + b)[1..] == a[1..] + b;
      CountConcat(a[1..], b, c);
    } else {
      assert a + b == b;
    }
  }

  /** Python's `str.isspace` on one character: ASCII white space, the
      information separators U+001C..U+001F and the Unicode space separators. */
  predicate IsSpace(c: char)
  {
    c == ' ' || ('\t' <= c <= '\r') || ('\U{1C}' <= c <= '\U{1F}') || c == '\U{85}' || c == '\U{A0}'
    || c == '\U{1680}' || ('\U{2000}' <= c <= '\U{200A}') || c == '\U{2028}' || c == '\U{2029}'
    || c == '\U{202F}' || c == '\U{205F}' || c == '\U{3000}'
  }

  function TrimEnd(s: string): (r: string)
    ensures |r| <= |s| && r == s[..|r|]
    ensures |r| > 0 ==> !IsSpace(r[|r| - 1])
    ensures forall i :: |r| <= i < |s| ==> IsSpace(s[i])
    decreases |s|
  {
    if |s| > 0 && IsSpace(s[|s| - 1]) then TrimEnd(s[..|s| - 1]) else s
  }

  /** Number of white-space characters `s` starts with. */
  function LeadingSpaces(s: string): (n: nat)
    ensures n <= |s|
    ensures forall j :: 0 <= j < n ==> IsSpace(s[j])
    ensures n < |s| ==> !IsSpace(s[n])
    decreases |s|
  {
    if |s| > 0 && IsSpace(s[0]) then 1 + LeadingSpaces(s[1..]) else 0
  }

  /** Python's `s.strip()`: the result is the slice of `s` left after cutting
      white space from both ends, and it neither starts nor ends with white
      space. */
  function Strip(s: string): (r: string)
    ensures LeadingSpaces(s) + |r| <= |s|
    ensures r == s[LeadingSpaces(s)..LeadingSpaces(s) + |r|]
    ensures forall j :: LeadingSpaces(s) + |r| <= j < |s| ==> IsSpace(s[j])
    ensures |r| > 0 ==> !IsSpace(r[0]) && !IsSpace(r[|r| - 1])
  {
    TrimEnd(s[LeadingSpaces(s)..])
  }

  function LowerChar(c: char): char
  {
    if 'A' <= c <= 'Z' then (c as int + 32) as char else c
  }

  /** Python's `s.lower()`, restricted to the ASCII letters. */
  function Lower(s: string): (r: string)
    ensures |r| == |s|
    ensures forall i :: 0 <= i < |s| ==> r[i] == LowerChar(s[i])
  {
    seq(|s|, i requires 0 <= i < |s| => LowerChar(s[i]))
  }

  predicate IsDigit(c: char)
  {
    '0' <= c <= '9'
  }

  /** Python's `s.isnumeric()`, restricted to the ASCII digits. */
  predicate IsNumeric(s: string)
  {
    |s| > 0 && forall i :: 0 <= i < |s| ==> IsDigit(s[i])
  }

  /** Python's `int(s)` on a string of decimal digits. */
  function DigitsValue(s: string): nat
    requires forall i :: 0 <= i < |s| ==> IsDigit(s[i])
    decreases |s|
  {
    if |s| == 0 then 0
    else
      assert IsDigit(s[|s| - 1]);
      10 * DigitsValue(s[..|s| - 1]) + (s[|s| - 1] as int - '0' as int)
  }

  function NatToString(n: nat): (r: string)
    ensures IsNumeric(r)
    decreases n
  {
    var d := ['0' + (n % 10) as char];
    if n < 10 then d else NatToString(n / 10) + d
  }

  /** Python's `str(n)` for an integer. */
  function IntToString(n: int): string
  {
    if n < 0 then "-" + NatToString(-n) else NatToString(n)
  }

  /** `int(str(n)) == n` for the digit strings `str` produces. */
  lemma {:induction false} DigitsValueOfNatToString(n: nat)
    ensures DigitsValue(NatToString(n)) == n
    decreases n
  {
    var d := ['0' + (n % 10) as char];
    if n >= 10 {
      DigitsValueOfNatToString(n / 10);
      var r := NatToString(n / 10) + d;
      assert r[..|r| - 1] == NatToString(n / 10);
    }
  }
}

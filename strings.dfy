/**
 * The Python `str` operations the application relies on, over `string`
 * (a sequence of Unicode scalar values): `str.isspace` for one character,
 * `str.strip()`, `str.split(sep)` for a one-character separator,
 * `sep.join(parts)` and `str.replace(old, new)` for single characters.
 */
module Strings {

  /** Python's `str.isspace` for a single character: the characters `str.strip()` removes. */
  predicate IsSpace(c: char) {
    || ('\t' <= c <= '\r')                 // tab, newline, vertical tab, form feed, carriage return
    || ('\U{001C}' <= c <= '\U{001F}')     // file, group, record and unit separators
    || c == ' ' || c == '\U{0085}' || c == '\U{00A0}' || c == '\U{1680}'
    || ('\U{2000}' <= c <= '\U{200A}')
    || c == '\U{2028}' || c == '\U{2029}' || c == '\U{202F}' || c == '\U{205F}' || c == '\U{3000}'
  }

  predicate AllSpace(s: string) {
    forall i | 0 <= i < |s| :: IsSpace(s[i])
  }

  /** Number of whitespace characters at the start of `s`. */
  function LeadingSpace(s: string): (n: nat)
    ensures n <= |s|
    ensures AllSpace(s[..n])
    ensures n < |s| ==> !IsSpace(s[n])
  {
    if |s| == 0 || !IsSpace(s[0]) then 0
    else
      var m := LeadingSpace(s[1..]);
      assert forall i | 1 <= i < m + 1 :: s[i] == s[1..][..m][i - 1];
      1 + m
  }

  /** Number of whitespace characters at the end of `s`. */
  function TrailingSpace(s: string): (n: nat)
    ensures n <= |s|
    ensures AllSpace(s[|s| - n..])
    ensures n < |s| ==> !IsSpace(s[|s| - n - 1])
  {
    if |s| == 0 || !IsSpace(s[|s| - 1]) then 0
    else
      var t := s[..|s| - 1];
      var m := TrailingSpace(t);
      assert forall i | |s| - m - 1 <= i < |s| - 1 :: s[i] == t[|t| - m..][i - (|s| - m - 1)];
      1 + m
  }

  /**
   * Python's `s.strip()`: `s` with every leading and trailing whitespace
   * character removed. The result is the unique infix of `s` that neither
   * starts nor ends with whitespace and is surrounded by whitespace only.
   */
  function Strip(s: string): (r: string)
    ensures |r| == 0 || (!IsSpace(r[0]) && !IsSpace(r[|r| - 1]))
    ensures LeadingSpace(s) + |r| <= |s|
    ensures r == s[LeadingSpace(s)..LeadingSpace(s) + |r|]
    ensures AllSpace(s[..LeadingSpace(s)]) && AllSpace(s[LeadingSpace(s) + |r|..])
  {
    var p := LeadingSpace(s);
    var t := s[p..];
    var q := TrailingSpace(t);
    assert q < |t| ==> t[|t| - q - 1] == t[..|t| - q][|t| - q - 1];
    assert s[p + (|t| - q)..] == t[|t| - q..];
    t[..|t| - q]
  }

  /**
   * Python's `s.split(c)` for a one-character separator: the pieces between
   * separators, in order, including empty ones; never an empty list.
   */
  function Split(s: string, c: char): (parts: seq<string>)
    ensures |parts| >= 1
    ensures forall i | 0 <= i < |parts| :: c !in parts[i]
  {
    if |s| == 0 then [""]
    else
      var rest := Split(s[1..], c);
      if s[0] == c then [""] + rest else [[s[0]] + rest[0]] + rest[1..]
  }

  /** Python's `sep.join(parts)`. */
  function Join(sep: string, parts: seq<string>): string
  {
    if |parts| == 0 then ""
    else if |parts| == 1 then parts[0]
    else parts[0] + sep + Join(sep, parts[1..])
  }

  /** Python's `s.replace(target, replacement)` for single characters. */
  function Replace(s: string, target: char, replacement: char): (r: string)
    ensures |r| == |s|
    ensures forall i | 0 <= i < |s| :: r[i] == if s[i] == target then replacement else s[i]
  {
    if |s| == 0 then ""
    else [if s[0] == target then replacement else s[0]] + Replace(s[1..], target, replacement)
  }

  /** A string that neither starts nor ends with whitespace is its own `strip()`. */
  lemma StripUnchanged(r: string)
    requires |r| == 0 || (!IsSpace(r[0]) && !IsSpace(r[|r| - 1]))
    ensures Strip(r) == r
  {
    if |r| > 0 {
      assert LeadingSpace(r) == 0;
      assert r[0..] == r;
      assert TrailingSpace(r) == 0;
    }
  }

  /** Stripping twice is stripping once. */
  lemma StripIdempotent(s: string)
    ensures Strip(Strip(s)) == Strip(s)
  {
    StripUnchanged(Strip(s));
  }

  /** `strip()` yields the empty string exactly for all-whitespace input. */
  lemma StripEmpty(s: string)
    ensures Strip(s) == "" <==> AllSpace(s)
  {
    var p := LeadingSpace(s);
    if p < |s| {
      var t := s[p..];
      assert t[0] == s[p];
      assert TrailingSpace(t) < |t|;
    } else {
      assert s[..p] == s;
    }
  }

  /** Splitting around one separator splits each side independently. */
  lemma {:induction false} SplitAround(a: string, c: char, b: string)
    ensures Split(a + [c] + b, c) == Split(a, c) + Split(b, c)
    decreases |a|
  {
    var s := a + [c] + b;
    if |a| == 0 {
      assert s == [c] + b;
      assert s[1..] == b;
    } else {
      assert s[0] == a[0];
      assert s[1..] == a[1..] + [c] + b;
      SplitAround(a[1..], c, b);
    }
  }

  /** A string without the separator is a single piece. */
  lemma {:induction false} SplitFree(a: string, c: char)
    requires c !in a
    ensures Split(a, c) == [a]
    decreases |a|
  {
    if |a| > 0 {
      assert a[1..] == a[1..];
      assert c !in a[1..] by { assert forall x | x in a[1..] :: x in a; }
      SplitFree(a[1..], c);
      assert a == [a[0]] + a[1..];
    }
  }

  /** Joining the pieces of a split with the separator gives back the string. */
  lemma {:induction false} JoinSplit(s: string, c: char)
    ensures Join([c], Split(s, c)) == s
    decreases |s|
  {
    if |s| > 0 {
      var rest := Split(s[1..], c);
      JoinSplit(s[1..], c);
      if s[0] == c {
        assert Join([c], [""] + rest) == "" + [c] + Join([c], rest);
      } else if |rest| == 1 {
        assert Split(s, c) == [[s[0]] + rest[0]];
      } else {
        var parts := [[s[0]] + rest[0]] + rest[1..];
        assert parts[1..] == rest[1..];
        assert Join([c], rest) == rest[0] + [c] + Join([c], rest[1..]);
      }
      assert s == [s[0]] + s[1..];
    }
  }

  /** Splitting a join of separator-free pieces gives back the pieces. */
  lemma {:induction false} SplitJoin(parts: seq<string>, c: char)
    requires |parts| >= 1
    requires forall i | 0 <= i < |parts| :: c !in parts[i]
    ensures Split(Join([c], parts), c) == parts
    decreases |parts|
  {
    SplitFree(parts[0], c);
    if |parts| > 1 {
      SplitJoin(parts[1..], c);
      SplitAround(parts[0], c, Join([c], parts[1..]));
      assert parts == [parts[0]] + parts[1..];
    }
  }

  /** A character that is neither in the separator nor in any part is not in the join. */
  lemma {:induction false} NotInJoin(sep: string, parts: seq<string>, c: char)
    requires c !in sep
    requires forall i | 0 <= i < |parts| :: c !in parts[i]
    ensures c !in Join(sep, parts)
    decreases |parts|
  {
    if |parts| > 1 {
      NotInJoin(sep, parts[1..], c);
    }
  }

  lemma AllSpaceAppend(a: string, b: string)
    ensures AllSpace(a + b) <==> AllSpace(a) && AllSpace(b)
  {
    if AllSpace(a + b) {
      assert forall i | 0 <= i < |a| :: a[i] == (a + b)[i];
      assert forall i | 0 <= i < |b| :: b[i] == (a + b)[|a| + i];
    }
  }

  /** Lines joined by newlines are all whitespace exactly when every line is. */
  lemma {:induction false} AllSpaceJoin(parts: seq<string>)
    ensures AllSpace(Join("\n", parts)) <==> forall i | 0 <= i < |parts| :: AllSpace(parts[i])
    decreases |parts|
  {
    if |parts| > 1 {
      var rest := Join("\n", parts[1..]);
      AllSpaceJoin(parts[1..]);
      AllSpaceAppend(parts[0] + "\n", rest);
      AllSpaceAppend(parts[0], "\n");
      assert AllSpace("\n");
      assert forall i | 1 <= i < |parts| :: parts[i] == parts[1..][i - 1];
    }
  }

  /** A join starts with its first part. */
  lemma JoinHead(sep: string, parts: seq<string>)
    requires |parts| > 0
    ensures |parts[0]| <= |Join(sep, parts)|
    ensures Join(sep, parts)[..|parts[0]|] == parts[0]
  {
    if |parts| > 1 {
      assert Join(sep, parts) == parts[0] + (sep + Join(sep, parts[1..]));
    }
  }

  /** With a non-empty separator, a join is empty exactly when it joins at most one part and that one is empty. */
  lemma JoinEmpty(sep: string, parts: seq<string>)
    requires |sep| > 0
    ensures Join(sep, parts) == "" <==> |parts| <= 1 && forall i | 0 <= i < |parts| :: parts[i] == ""
  {
    if |parts| > 1 {
      assert |Join(sep, parts)| >= |sep|;
    }
  }

  /** A text is whitespace only exactly when each of its lines is. */
  lemma AllSpaceLines(s: string)
    ensures AllSpace(s) <==> forall j | 0 <= j < |Split(s, '\n')| :: AllSpace(Split(s, '\n')[j])
  {
    JoinSplit(s, '\n');
    AllSpaceJoin(Split(s, '\n'));
  }
}

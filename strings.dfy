/** The few Python `str` operations the scripts rely on, with Python's semantics. */
module Strings {

  /** The characters for which Python's `str.isspace()` holds; `str.strip()` with no argument removes them. */
  const Whitespace: set<char> := {
    ' ', '\t', '\n', '\U{b}', '\U{c}', '\r', '\U{1c}', '\U{1d}', '\U{1e}', '\U{1f}', '\U{85}', '\U{a0}',
    '\U{1680}', '\U{2000}', '\U{2001}', '\U{2002}', '\U{2003}', '\U{2004}', '\U{2005}', '\U{2006}',
    '\U{2007}', '\U{2008}', '\U{2009}', '\U{200a}', '\U{2028}', '\U{2029}', '\U{202f}', '\U{205f}', '\U{3000}'
  }

  /** Leading characters in `drop` removed (Python `lstrip`). */
  function TrimLeft(s: string, drop: set<char>): (r: string)
    ensures |r| <= |s|
  {
    if |s| > 0 && s[0] in drop then TrimLeft(s[1..], drop) else s
  }

  /** Trailing characters in `drop` removed (Python `rstrip`). */
  function TrimRight(s: string, drop: set<char>): (r: string)
    ensures |r| <= |s|
  {
    if |s| > 0 && s[|s| - 1] in drop then TrimRight(s[..|s| - 1], drop) else s
  }

  /** `lstrip` removes exactly the longest prefix of characters in `drop`. */
  lemma {:induction false} TrimLeftSpec(s: string, drop: set<char>)
    ensures var r := TrimLeft(s, drop);
      && r == s[|s| - |r|..]
      && (forall i :: 0 <= i < |s| - |r| ==> s[i] in drop)
      && (r == [] || r[0] !in drop)
  {
    if |s| > 0 && s[0] in drop {
      TrimLeftSpec(s[1..], drop);
    }
  }

  /** `rstrip` removes exactly the longest suffix of characters in `drop`. */
  lemma {:induction false} TrimRightSpec(s: string, drop: set<char>)
    ensures var r := TrimRight(s, drop);
      && r == s[..|r|]
      && (forall i :: |r| <= i < |s| ==> s[i] in drop)
      && (r == [] || r[|r| - 1] !in drop)
  {
    if |s| > 0 && s[|s| - 1] in drop {
      TrimRightSpec(s[..|s| - 1], drop);
    }
  }

  /** Stripping leaves a string alone when neither end is a character to strip. */
  lemma TrimUnchanged(s: string, drop: set<char>)
    requires s == [] || (s[0] !in drop && s[|s| - 1] !in drop)
    ensures TrimLeft(s, drop) == s && TrimRight(s, drop) == s
  {
  }

  /** Python `s.strip()`: surrounding whitespace removed. */
  function StripSpace(s: string): string {
    TrimRight(TrimLeft(s, Whitespace), Whitespace)
  }

  /** Python `s.strip(c)` for a one-character argument. */
  function StripChar(s: string, c: char): string {
    TrimRight(TrimLeft(s, {c}), {c})
  }

  /** Python `s.rstrip(c)` for a one-character argument. */
  function RStripChar(s: string, c: char): string {
    TrimRight(s, {c})
  }

  predicate StartsWith(s: string, p: string) {
    |p| <= |s| && s[..|p|] == p
  }

  /** Python `s.endswith(p)`. */
  predicate EndsWith(s: string, p: string) {
    |p| <= |s| && s[|s| - |p|..] == p
  }

  /** Python `sub in s`. */
  predicate Contains(s: string, sub: string)
    decreases |s|
  {
    StartsWith(s, sub) || (|s| > 0 && Contains(s[1..], sub))
  }

  /** Python `s.split(sep)` for a one-character separator: never empty, one part more than separators. */
  function Split(s: string, sep: char): (parts: seq<string>)
    ensures |parts| >= 1
    ensures forall i :: 0 <= i < |parts| ==> sep !in parts[i]
    decreases |s|
  {
    if |s| == 0 then [""]
    else
      var rest := Split(s[1..], sep);
      if s[0] == sep then [""] + rest else [[s[0]] + rest[0]] + rest[1..]
  }

  /** Python `sep.join(parts)` for a non-empty list. */
  function Join(parts: seq<string>, sep: char): string
    requires |parts| >= 1
  {
    if |parts| == 1 then parts[0] else parts[0] + [sep] + Join(parts[1..], sep)
  }

  /** Python `s.replace(a, b)` for one-character arguments. */
  function ReplaceChar(s: string, a: char, b: char): (r: string)
    ensures |r| == |s|
  {
    seq(|s|, i requires 0 <= i < |s| => if s[i] == a then b else s[i])
  }

  /** After replacing every `a` by another character, no `a` is left. */
  lemma ReplaceCharRemoves(s: string, a: char, b: char)
    requires a != b
    ensures a !in ReplaceChar(s, a, b)
  {
    var r := ReplaceChar(s, a, b);
    forall k | 0 <= k < |r| ensures r[k] != a { }
  }

  /** Python `s.replace(pat, rep)`: every non-overlapping occurrence, scanning from the left. */
  function Replace(s: string, pat: string, rep: string): (r: string)
    requires |pat| > 0
    ensures !Contains(s, pat) ==> r == s
    decreases |s|
  {
    if |s| < |pat| then s
    else if s[..|pat|] == pat then rep + Replace(s[|pat|..], pat, rep)
    else [s[0]] + Replace(s[1..], pat, rep)
  }

  /** Splitting the text of a join gives back the parts, when no part holds the separator. */
  lemma {:induction false} SplitJoin(parts: seq<string>, sep: char)
    requires |parts| >= 1
    requires forall i :: 0 <= i < |parts| ==> sep !in parts[i]
    ensures Split(Join(parts, sep), sep) == parts
  {
    if |parts| == 1 {
      SplitPlain(parts[0], sep);
    } else {
      SplitJoin(parts[1..], sep);
      SplitField(parts[0], Join(parts[1..], sep), sep);
      assert [parts[0]] + parts[1..] == parts;
    }
  }

  /** Joining the parts of a split gives back the text. */
  lemma {:induction false} JoinSplit(s: string, sep: char)
    ensures Join(Split(s, sep), sep) == s
    decreases |s|
  {
    if |s| > 0 {
      var rest := Split(s[1..], sep);
      JoinSplit(s[1..], sep);
      if s[0] == sep {
        assert ([""] + rest)[1..] == rest;
      } else {
        var parts := [[s[0]] + rest[0]] + rest[1..];
        if |rest| > 1 {
          assert parts[1..] == rest[1..];
          assert Join(rest, sep) == rest[0] + [sep] + Join(rest[1..], sep);
        }
      }
    }
  }

  lemma {:induction false} SplitPlain(w: string, sep: char)
    requires sep !in w
    ensures Split(w, sep) == [w]
    decreases |w|
  {
    if |w| > 0 {
      SplitPlain(w[1..], sep);
      assert w[0] != sep;
      assert [w[0]] + w[1..] == w;
    }
  }

  lemma {:induction false} SplitField(w: string, t: string, sep: char)
    requires sep !in w
    ensures Split(w + [sep] + t, sep) == [w] + Split(t, sep)
    decreases |w|
  {
    var s := w + [sep] + t;
    if |w| == 0 {
      assert s[1..] == t;
    } else {
      assert s[1..] == w[1..] + [sep] + t;
      SplitField(w[1..], t, sep);
      assert [w[0]] + w[1..] == w;
    }
  }

  /** Python `sep.join(parts)` for any list: the empty list joins to the empty string. */
  function JoinList(parts: seq<string>, sep: char): string {
    if |parts| == 0 then "" else Join(parts, sep)
  }

  /** Joining one more part adds the separator and the part at the end. */
  lemma {:induction false} JoinSnoc(parts: seq<string>, last: string, sep: char)
    requires |parts| >= 1
    ensures Join(parts + [last], sep) == Join(parts, sep) + [sep] + last
  {
    if |parts| > 1 {
      assert (parts + [last])[1..] == parts[1..] + [last];
      JoinSnoc(parts[1..], last, sep);
    }
  }

  /** A pattern with a character the text lacks does not occur in it. */
  lemma {:induction false} MissingChar(s: string, pat: string, k: nat)
    requires k < |pat| && pat[k] !in s
    ensures !Contains(s, pat)
    decreases |s|
  {
    assert !StartsWith(s, pat) by {
      assert |pat| <= |s| ==> s[..|pat|][k] == s[k];
    }
    if |s| > 0 {
      MissingChar(s[1..], pat, k);
    }
  }

  /** Removing a pattern adds no character. */
  lemma {:induction false} ReplaceChars(s: string, pat: string, ch: char)
    requires |pat| > 0 && ch !in s
    ensures ch !in Replace(s, pat, "")
    decreases |s|
  {
    if |s| >= |pat| {
      if s[..|pat|] == pat {
        ReplaceChars(s[|pat|..], pat, ch);
      } else {
        ReplaceChars(s[1..], pat, ch);
      }
    }
  }

  /**
    Removing a pattern whose last character occurs nowhere else in it, from a text that
    ends with it and otherwise lacks that character, removes exactly that ending.
   */
  lemma {:induction false} ReplaceSuffix(c: string, pat: string)
    requires |pat| > 0 && pat[|pat| - 1] !in c && pat[|pat| - 1] !in pat[..|pat| - 1]
    ensures Replace(c + pat, pat, "") == c
    decreases |c|
  {
    var s := c + pat;
    if |c| == 0 {
      assert s == pat && s[|pat|..] == "";
    } else {
      if |c| >= |pat| {
        assert s[|pat| - 1] == c[|pat| - 1];
      } else {
        assert s[|pat| - 1] == pat[|pat| - 1 - |c|] && pat[|pat| - 1 - |c|] in pat[..|pat| - 1];
      }
      assert s[..|pat|] != pat;
      assert s[1..] == c[1..] + pat;
      ReplaceSuffix(c[1..], pat);
      assert [c[0]] + c[1..] == c;
    }
  }
}

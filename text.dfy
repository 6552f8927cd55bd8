/**
 * String helpers with Python's meaning: `str.strip(chars)`, `str.startswith`,
 * `str.split(sep)[0]`, `str.lower()` (ASCII letters only), the ordering `<` on
 * strings, and `"\n".join` / `str.split("\n")`.
 */
module Text {

  /** Characters stripped from caption text: carriage return, newline, space, NUL. */
  const CaptionNoise: set<char> := {'\r', '\n', ' ', '\0'}

  /** The characters for which Python's `str.isspace()` holds; `str.strip()` removes these. */
  const PyWhitespace: set<char> := {
    '\t', '\n', '\U{B}', '\U{C}', '\r', '\U{1C}', '\U{1D}', '\U{1E}', '\U{1F}', ' ',
    '\U{85}', '\U{A0}', '\U{1680}', '\U{2000}', '\U{2001}', '\U{2002}', '\U{2003}',
    '\U{2004}', '\U{2005}', '\U{2006}', '\U{2007}', '\U{2008}', '\U{2009}', '\U{200A}',
    '\U{2028}', '\U{2029}', '\U{202F}', '\U{205F}', '\U{3000}'
  }

  /** Removes the longest prefix made of characters in `cs`. */
  function TrimStart(s: string, cs: set<char>): (r: string)
    ensures |r| <= |s|
    decreases |s|
  {
    if |s| > 0 && s[0] in cs then TrimStart(s[1..], cs) else s
  }

  /** Removes the longest suffix made of characters in `cs`. */
  function TrimEnd(s: string, cs: set<char>): (r: string)
    ensures |r| <= |s|
    decreases |s|
  {
    if |s| > 0 && s[|s| - 1] in cs then TrimEnd(s[..|s| - 1], cs) else s
  }

  /** `TrimStart` leaves a suffix, removes only characters of `cs`, and stops at one not in `cs`. */
  lemma {:induction false} TrimStartSpec(s: string, cs: set<char>)
    ensures var r := TrimStart(s, cs);
      |r| <= |s| && r == s[|s| - |r|..]
      && (forall k :: 0 <= k < |s| - |r| ==> s[k] in cs)
      && (r == [] || r[0] !in cs)
    decreases |s|
  {
    if |s| > 0 && s[0] in cs {
      TrimStartSpec(s[1..], cs);
      var r := TrimStart(s, cs);
      assert forall k :: 1 <= k < |s| ==> s[k] == s[1..][k - 1];
    }
  }

  /** `TrimEnd` leaves a prefix, removes only characters of `cs`, and stops at one not in `cs`. */
  lemma {:induction false} TrimEndSpec(s: string, cs: set<char>)
    ensures var r := TrimEnd(s, cs);
      |r| <= |s| && r == s[..|r|]
      && (forall k :: |r| <= k < |s| ==> s[k] in cs)
      && (r == [] || r[|r| - 1] !in cs)
    decreases |s|
  {
    if |s| > 0 && s[|s| - 1] in cs {
      TrimEndSpec(s[..|s| - 1], cs);
      var r := TrimEnd(s, cs);
      assert forall k :: 0 <= k < |s| - 1 ==> s[k] == s[..|s| - 1][k];
    }
  }

  /** Python's `s.strip(chars)`, with `chars` given as the set `cs`. */
  function Strip(s: string, cs: set<char>): string
  {
    TrimEnd(TrimStart(s, cs), cs)
  }

  /** Number of characters `Strip` removes from the front of `s`. */
  function StripOffset(s: string, cs: set<char>): nat
  {
    |s| - |TrimStart(s, cs)|
  }

  /**
   * `Strip(s, cs)` is the slice of `s` left once every leading and trailing
   * character in `cs` is gone: what was removed lies in `cs`, and what is
   * left neither starts nor ends with a character of `cs`.
   */
  lemma StripIsMaximalSlice(s: string, cs: set<char>)
    ensures var r, i := Strip(s, cs), StripOffset(s, cs);
      i + |r| <= |s| && r == s[i..i + |r|]
      && (forall k :: 0 <= k < i ==> s[k] in cs)
      && (forall k :: i + |r| <= k < |s| ==> s[k] in cs)
      && (r == [] || (r[0] !in cs && r[|r| - 1] !in cs))
  {
    var t := TrimStart(s, cs);
    var r := TrimEnd(t, cs);
    TrimStartSpec(s, cs);
    TrimEndSpec(t, cs);
    var i := |s| - |t|;
    assert t == s[i..];
    assert r == t[..|r|];
    assert r == s[i..i + |r|];
    TrimEndTail(s, t, r, i, cs);
    if r != [] {
      assert r[0] == t[0];
    }
  }

  lemma TrimEndTail(s: string, t: string, r: string, i: nat, cs: set<char>)
    requires i <= |s| && t == s[i..] && |r| <= |t|
    requires forall k :: |r| <= k < |t| ==> t[k] in cs
    ensures forall k :: i + |r| <= k < |s| ==> s[k] in cs
  {
    forall k | i + |r| <= k < |s| ensures s[k] in cs {
      assert s[k] == t[k - i];
    }
  }

  /** A character absent from `s` is absent from what `Strip` leaves. */
  lemma StripKeepsAbsent(s: string, cs: set<char>, c: char)
    requires c !in s
    ensures c !in Strip(s, cs)
  {
    StripIsMaximalSlice(s, cs);
    var r, i := Strip(s, cs), StripOffset(s, cs);
    forall k | 0 <= k < |r| ensures r[k] != c {
      assert r[k] == s[i + k];
    }
  }

  /** Stripping twice is stripping once. */
  lemma StripIdempotent(s: string, cs: set<char>)
    ensures Strip(Strip(s, cs), cs) == Strip(s, cs)
  {
    var r := Strip(s, cs);
    StripIsMaximalSlice(s, cs);
    TrimStartSpec(r, cs);
    TrimEndSpec(r, cs);
    if r != [] {
      assert TrimStart(r, cs) == r;
      assert TrimEnd(r, cs) == r;
    }
  }

  /** Python's `s.startswith(p)`. */
  predicate StartsWith(s: string, p: string)
  {
    |p| <= |s| && s[..|p|] == p
  }

  /** Python's `s.split(c)[0]`: everything before the first `c`, or all of `s`. */
  function BeforeFirst(s: string, c: char): (r: string)
    ensures |r| <= |s| && r == s[..|r|]
    ensures c !in r
    ensures |r| < |s| ==> s[|r|] == c
  {
    if |s| == 0 || s[0] == c then [] else [s[0]] + BeforeFirst(s[1..], c)
  }

  predicate IsAsciiUpper(ch: char)
  {
    'A' <= ch <= 'Z'
  }

  function LowerChar(ch: char): char
  {
    if IsAsciiUpper(ch) then (ch as int + 32) as char else ch
  }

  /**
   * `s.lower()` restricted to ASCII: every capital A-Z becomes its small
   * letter, every other character is kept.
   */
  function ToLower(s: string): (r: string)
    ensures |r| == |s|
    ensures forall i :: 0 <= i < |s| ==> !IsAsciiUpper(r[i])
    ensures forall i :: 0 <= i < |s| && !IsAsciiUpper(s[i]) ==> r[i] == s[i]
    ensures forall i :: 0 <= i < |s| && IsAsciiUpper(s[i]) ==> r[i] as int == s[i] as int + 32
  {
    seq(|s|, i requires 0 <= i < |s| => LowerChar(s[i]))
  }

  /** Lowering keeps out a character that is no letter and was absent before. */
  lemma LowerKeepsAbsent(s: string, c: char)
    requires c !in s && !IsAsciiUpper(c) && !('a' <= c <= 'z')
    ensures c !in ToLower(s)
  {
    var r := ToLower(s);
    forall i | 0 <= i < |r| ensures r[i] != c {
      assert s[i] != c;
    }
  }

  /** Python's `a < b` on strings: code-point order, a proper prefix comes first. */
  predicate LexLess(a: string, b: string)
  {
    if |a| == 0 then |b| > 0
    else if |b| == 0 then false
    else if a[0] == b[0] then LexLess(a[1..], b[1..])
    else a[0] < b[0]
  }

  lemma {:induction false} LexIrreflexive(a: string)
    ensures !LexLess(a, a)
  {
    if |a| > 0 {
      LexIrreflexive(a[1..]);
    }
  }

  lemma {:induction false} LexTransitive(a: string, b: string, c: string)
    requires LexLess(a, b) && LexLess(b, c)
    ensures LexLess(a, c)
  {
    if |a| > 0 && a[0] == b[0] && b[0] == c[0] {
      LexTransitive(a[1..], b[1..], c[1..]);
    }
  }

  /** Any two different strings are ordered one way or the other. */
  lemma {:induction false} LexTotal(a: string, b: string)
    requires a != b
    ensures LexLess(a, b) || LexLess(b, a)
  {
    if |a| > 0 && |b| > 0 && a[0] == b[0] {
      assert a == [a[0]] + a[1..] && b == [b[0]] + b[1..];
      LexTotal(a[1..], b[1..]);
    }
  }

  lemma {:induction false} LexAsymmetric(a: string, b: string)
    requires LexLess(a, b)
    ensures !LexLess(b, a)
  {
    if |a| > 0 && |b| > 0 && a[0] == b[0] {
      LexAsymmetric(a[1..], b[1..]);
    }
  }

  /** `"\n".join(xs)`. */
  function JoinLines(xs: seq<string>): string
  {
    if |xs| == 0 then ""
    else if |xs| == 1 then xs[0]
    else xs[0] + "\n" + JoinLines(xs[1..])
  }

  /** `s.split("\n")`: always at least one piece. */
  function SplitLines(s: string): (r: seq<string>)
    ensures |r| > 0
  {
    if |s| == 0 then [""]
    else if s[0] == '\n' then [""] + SplitLines(s[1..])
    else var rest := SplitLines(s[1..]); [[s[0]] + rest[0]] + rest[1..]
  }

  /** Joining the pieces of a split gives back the text. */
  lemma {:induction false} JoinSplit(s: string)
    ensures JoinLines(SplitLines(s)) == s
  {
    if |s| > 0 {
      JoinSplit(s[1..]);
      var rest := SplitLines(s[1..]);
      if s[0] == '\n' {
        assert s == "\n" + s[1..];
      } else if |rest| == 1 {
        assert s == [s[0]] + s[1..];
      } else {
        assert JoinLines(rest) == rest[0] + "\n" + JoinLines(rest[1..]);
        assert rest[1..] == ([[s[0]] + rest[0]] + rest[1..])[1..];
        assert s == [s[0]] + s[1..];
      }
    }
  }

  /** Splitting a piece without newlines followed by a newline and more text. */
  lemma {:induction false} SplitAfterLine(a: string, b: string)
    requires '\n' !in a
    ensures SplitLines(a + "\n" + b) == [a] + SplitLines(b)
  {
    if |a| == 0 {
      assert a + "\n" + b == "\n" + b;
      assert ("\n" + b)[1..] == b;
    } else {
      assert (a + "\n" + b)[1..] == a[1..] + "\n" + b;
      SplitAfterLine(a[1..], b);
      assert [a[0]] + a[1..] == a;
    }
  }

  /** A single piece without newlines splits into itself. */
  lemma {:induction false} SplitSingle(a: string)
    requires '\n' !in a
    ensures SplitLines(a) == [a]
  {
    if |a| > 0 {
      SplitSingle(a[1..]);
      assert [a[0]] + a[1..] == a;
    }
  }

  /** Transcript lines that contain no newline are recovered by splitting their join. */
  lemma {:induction false} SplitJoin(xs: seq<string>)
    requires |xs| > 0
    requires forall i :: 0 <= i < |xs| ==> '\n' !in xs[i]
    ensures SplitLines(JoinLines(xs)) == xs
  {
    if |xs| == 1 {
      SplitSingle(xs[0]);
    } else {
      SplitJoin(xs[1..]);
      SplitAfterLine(xs[0], JoinLines(xs[1..]));
      assert xs == [xs[0]] + xs[1..];
    }
  }
}

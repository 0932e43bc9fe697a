/** String operations with the semantics of the JavaScript built-ins the
    editor calls: `trim`, `split(sep)[0]`, `replaceAll`, `padStart`, `join`. */
module Text {

  /** The characters `String.prototype.trim` and `Number(string)` strip:
      ECMAScript WhiteSpace (tab, VT, FF, space, NBSP, BOM, the Zs category)
      and LineTerminator (LF, CR, LS, PS). */
  predicate IsWhitespace(c: char) {
    || c == '\t' || c == '\n' || c == '\U{000B}' || c == '\U{000C}' || c == '\r'
    || c == ' ' || c == '\U{00A0}' || c == '\U{1680}'
    || ('\U{2000}' <= c <= '\U{200A}')
    || c == '\U{2028}' || c == '\U{2029}' || c == '\U{202F}' || c == '\U{205F}'
    || c == '\U{3000}' || c == '\U{FEFF}'
  }

  predicate NoWhitespace(s: string) {
    forall i :: 0 <= i < |s| ==> !IsWhitespace(s[i])
  }

  function TrimStart(s: string): (r: string)
    ensures |r| <= |s|
    ensures r == s[|s| - |r|..]
    ensures |r| > 0 ==> !IsWhitespace(r[0])
  {
    if |s| > 0 && IsWhitespace(s[0]) then TrimStart(s[1..]) else s
  }

  function TrimEnd(s: string): (r: string)
    ensures |r| <= |s|
    ensures r == s[..|r|]
    ensures |r| > 0 ==> !IsWhitespace(r[|r| - 1])
  {
    if |s| > 0 && IsWhitespace(s[|s| - 1]) then TrimEnd(s[..|s| - 1]) else s
  }

  /** `s.trim()`. */
  function Trim(s: string): string {
    TrimEnd(TrimStart(s))
  }

  /** A string with no whitespace at all is its own trim. */
  lemma TrimNoWhitespace(s: string)
    requires NoWhitespace(s)
    ensures Trim(s) == s
  {
    assert TrimStart(s) == s;
    assert TrimEnd(s) == s;
  }

  /** The first piece of `s` split at `sep`: its longest prefix free of `sep`. */
  function FirstSegment(s: string, sep: char): (r: string)
    ensures r <= s
    ensures sep !in r
    ensures |r| < |s| ==> s[|r|] == sep
  {
    if |s| == 0 || s[0] == sep then "" else [s[0]] + FirstSegment(s[1..], sep)
  }

  /** The first segment of `a + b` is `a` when `a` holds no separator and
      `b` is empty or starts with one. */
  lemma {:induction false} FirstSegmentOfPrefix(a: string, b: string, sep: char)
    requires sep !in a
    requires |b| == 0 || b[0] == sep
    ensures FirstSegment(a + b, sep) == a
    decreases |a|
  {
    if |a| > 0 {
      assert (a + b)[0] == a[0];
      assert (a + b)[1..] == a[1..] + b;
      FirstSegmentOfPrefix(a[1..], b, sep);
      assert a == [a[0]] + a[1..];
    }
  }

  /** `s.replaceAll(pat, rep)` for a literal pattern: non-overlapping
      occurrences, scanned left to right. */
  function ReplaceAll(s: string, pat: string, rep: string): string
    requires |pat| > 0
    decreases |s|
  {
    if |s| < |pat| then s
    else if s[..|pat|] == pat then rep + ReplaceAll(s[|pat|..], pat, rep)
    else [s[0]] + ReplaceAll(s[1..], pat, rep)
  }

  /** A string that never shows the pattern's first character is left as is. */
  lemma {:induction false} ReplaceAllNoStart(s: string, pat: string, rep: string)
    requires |pat| > 0
    requires pat[0] !in s
    ensures ReplaceAll(s, pat, rep) == s
    decreases |s|
  {
    if |s| >= |pat| {
      assert s[..|pat|][0] == s[0] != pat[0];
      ReplaceAllNoStart(s[1..], pat, rep);
      assert s == [s[0]] + s[1..];
    }
  }

  /** One step of the scan past a character that cannot start the pattern. */
  lemma ReplaceAllSkip(s: string, pat: string, rep: string)
    requires |pat| > 0 && |s| > 0 && s[0] != pat[0]
    ensures ReplaceAll(s, pat, rep) == [s[0]] + ReplaceAll(s[1..], pat, rep)
  {
    if |s| >= |pat| {
      assert s[..|pat|][0] != pat[0];
    }
  }

  /** A single occurrence flanked by text without the pattern's first
      character is the one thing replaced. */
  lemma {:induction false} ReplaceAllSingle(a: string, pat: string, b: string, rep: string)
    requires |pat| > 0
    requires pat[0] !in a && pat[0] !in b
    ensures ReplaceAll(a + pat + b, pat, rep) == a + rep + b
    decreases |a|
  {
    var s := a + pat + b;
    if |a| == 0 {
      assert s == pat + b;
      assert s[..|pat|] == pat;
      assert s[|pat|..] == b;
      ReplaceAllNoStart(b, pat, rep);
    } else {
      assert s[0] == a[0] && a[0] in a;
      ReplaceAllSkip(s, pat, rep);
      assert s[1..] == a[1..] + pat + b;
      assert pat[0] !in a[1..] by {
        assert forall c :: c in a[1..] ==> c in a;
      }
      ReplaceAllSingle(a[1..], pat, b, rep);
      assert [a[0]] + (a[1..] + rep + b) == a + rep + b by {
        assert a == [a[0]] + a[1..];
      }
    }
  }

  function Repeat(c: char, n: nat): (r: string)
    ensures |r| == n
    ensures forall i :: 0 <= i < n ==> r[i] == c
  {
    if n == 0 then "" else [c] + Repeat(c, n - 1)
  }

  /** `s.padStart(n, c)` with a one-character filler. */
  function PadStart(s: string, n: nat, c: char): (r: string)
    ensures |r| == if |s| >= n then |s| else n
    ensures r[|r| - |s|..] == s
    ensures forall i :: 0 <= i < |r| - |s| ==> r[i] == c
  {
    if |s| >= n then s else Repeat(c, n - |s|) + s
  }

  /** `xs.join(sep)`. */
  function Join(xs: seq<string>, sep: string): string
    decreases |xs|
  {
    if |xs| == 0 then ""
    else if |xs| == 1 then xs[0]
    else xs[0] + sep + Join(xs[1..], sep)
  }

  /** Joining strings without whitespace, by a separator without whitespace,
      gives a string without whitespace. */
  lemma {:induction false} JoinNoWhitespace(xs: seq<string>, sep: string)
    requires forall j :: 0 <= j < |xs| ==> NoWhitespace(xs[j])
    requires NoWhitespace(sep)
    ensures NoWhitespace(Join(xs, sep))
    decreases |xs|
  {
    if |xs| > 1 {
      JoinNoWhitespace(xs[1..], sep);
    }
  }

  /** A join starts with its first element, followed by nothing or by the
      separator. */
  lemma JoinHead(xs: seq<string>, sep: string)
    requires |xs| > 0
    ensures Join(xs, sep) == xs[0] + Join(xs, sep)[|xs[0]|..]
    ensures |xs| > 1 ==> Join(xs, sep)[|xs[0]|..] == sep + Join(xs[1..], sep)
    ensures |xs| == 1 ==> Join(xs, sep)[|xs[0]|..] == ""
  {
  }
}

/** The few operations of Python's str type that the overlay uses:
    `isspace`, `strip`, `startswith`, `in`, `split(sep)[0]` and `replace`.
    Strings are sequences of Unicode scalar values, as Python's are. */
module PyStrings {

  /** Python's str.isspace for a single character. */
  predicate IsSpace(c: char) {
    c == ' ' || ('\t' <= c <= '\r') || ('\U{1C}' <= c <= '\U{1F}')
    || c == '\U{85}' || c == '\U{A0}' || c == '\U{1680}'
    || ('\U{2000}' <= c <= '\U{200A}') || c == '\U{2028}' || c == '\U{2029}'
    || c == '\U{202F}' || c == '\U{205F}' || c == '\U{3000}'
  }

  /** True when `s.strip()` is empty, i.e. `not s.strip()` in Python. */
  predicate IsBlank(s: string) {
    forall k :: 0 <= k < |s| ==> IsSpace(s[k])
  }

  /** str.lstrip(): the suffix left after dropping leading whitespace. */
  function LStrip(s: string): (r: string)
    ensures |r| <= |s| && r == s[|s| - |r|..]
    ensures IsBlank(s[..|s| - |r|])
    ensures r != [] ==> !IsSpace(r[0])
  {
    if s != [] && IsSpace(s[0]) then LStrip(s[1..]) else s
  }

  /** str.rstrip(): the prefix left after dropping trailing whitespace. */
  function RStrip(s: string): (r: string)
    ensures |r| <= |s| && r == s[..|r|]
    ensures IsBlank(s[|r|..])
    ensures r != [] ==> !IsSpace(r[|r| - 1])
  {
    if s != [] && IsSpace(s[|s| - 1]) then RStrip(s[..|s| - 1]) else s
  }

  /** r is the piece s[i..i + |r|] of s, and everything around it is whitespace. */
  predicate MiddleOf(s: string, r: string, i: int) {
    0 <= i && i + |r| <= |s| && r == s[i..i + |r|]
    && IsBlank(s[..i]) && IsBlank(s[i + |r|..])
  }

  /** str.strip(): the piece of s left when the whitespace around it is removed.
      Its ends are not whitespace, so it is the only such piece. */
  function Strip(s: string): (r: string)
    ensures |r| <= |s|
    ensures exists i :: MiddleOf(s, r, i)
    ensures r != [] ==> !IsSpace(r[0]) && !IsSpace(r[|r| - 1])
    ensures r == [] <==> IsBlank(s)
  {
    var l := LStrip(s);
    var r := RStrip(l);
    assert r == [] ==> l == [];
    StripMiddle(s);
    r
  }

  /** Stripping both ends keeps the middle piece of s, starting where lstrip starts. */
  lemma StripMiddle(s: string)
    ensures MiddleOf(s, RStrip(LStrip(s)), |s| - |LStrip(s)|)
  {
    var l := LStrip(s);
    var r := RStrip(l);
    assert |l| <= |s| && l == s[|s| - |l|..];
    assert IsBlank(s[..|s| - |l|]);
    assert |r| <= |l| && r == l[..|r|];
    assert IsBlank(l[|r|..]);
    MiddleOfParts(s, l, r);
  }

  /** A prefix r of a suffix l of s, with blanks before l and after r, is a middle piece of s. */
  lemma MiddleOfParts(s: string, l: string, r: string)
    requires |l| <= |s| && l == s[|s| - |l|..] && IsBlank(s[..|s| - |l|])
    requires |r| <= |l| && r == l[..|r|] && IsBlank(l[|r|..])
    ensures MiddleOf(s, r, |s| - |l|)
  {
    var i := |s| - |l|;
    assert s[i + |r|..] == l[|r|..];
  }

  /** A trailing space never survives strip: `(s + " ").strip() == s.strip()`. */
  lemma {:induction false} StripTrailingSpace(s: string)
    ensures Strip(s + " ") == Strip(s)
  {
    if s != [] && IsSpace(s[0]) {
      assert (s + " ")[1..] == s[1..] + " ";
      StripTrailingSpace(s[1..]);
      assert LStrip(s + " ") == LStrip(s[1..] + " ");
    } else if s == [] {
      assert LStrip(" ") == LStrip(" "[1..]);
      assert " "[1..] == [];
    } else {
      assert LStrip(s + " ") == s + " ";
      assert (s + " ")[..|s + " "| - 1] == s;
    }
  }

  /** `s[i:].startswith(m)` with `i + len(m) <= len(s)`: m occurs in s at index i. */
  predicate OccursAt(s: string, m: string, i: int) {
    0 <= i && i + |m| <= |s| && s[i..i + |m|] == m
  }

  /** Python's `m in s` for strings. */
  predicate Contains(s: string, m: string) {
    exists i :: 0 <= i <= |s| - |m| && OccursAt(s, m, i)
  }

  /** str.startswith. */
  predicate StartsWith(s: string, p: string) {
    |p| <= |s| && s[..|p|] == p
  }

  /** The index of the first occurrence of m in s at or after i, or |s| when there is none. */
  function FirstIndexFrom(s: string, m: string, i: nat): (k: nat)
    requires i <= |s|
    ensures i <= k <= |s|
    ensures k < |s| ==> OccursAt(s, m, k)
    ensures forall j :: i <= j < k ==> !OccursAt(s, m, j)
    decreases |s| - i
  {
    if i == |s| then |s|
    else if OccursAt(s, m, i) then i
    else FirstIndexFrom(s, m, i + 1)
  }

  /** An occurrence inside a prefix is an occurrence in the whole string. */
  lemma OccursInPrefix(s: string, n: nat, m: string, j: int)
    requires n <= |s| && OccursAt(s[..n], m, j)
    ensures OccursAt(s, m, j)
  {
    assert s[..n][j..j + |m|] == s[j..j + |m|];
  }

  /** An occurrence inside a suffix is an occurrence in the whole string. */
  lemma OccursInSuffix(s: string, n: nat, m: string, j: int)
    requires n <= |s| && OccursAt(s[n..], m, j)
    ensures OccursAt(s, m, n + j)
  {
    assert s[n..][j..j + |m|] == s[n + j..n + j + |m|];
  }

  /** Substrings of a string free of m are free of m. */
  lemma NotContainsSlice(s: string, i: nat, j: nat, m: string)
    requires i <= j <= |s| && !Contains(s, m)
    ensures !Contains(s[i..j], m)
  {
    if Contains(s[i..j], m) {
      var p :| OccursAt(s[i..j], m, p);
      assert s[i..j] == s[i..][..j - i];
      OccursInPrefix(s[i..], j - i, m, p);
      OccursInSuffix(s, i, m, p);
      assert false;
    }
  }

  /** `s.split(sep)[0]`: the text before the first occurrence of sep, or all of s. */
  function SplitHead(s: string, sep: string): (r: string)
    requires |sep| > 0
    ensures |r| <= |s| && r == s[..|r|]
    ensures !Contains(r, sep)
    ensures |r| == |s| || OccursAt(s, sep, |r|)
    ensures forall j :: 0 <= j < |r| ==> !OccursAt(s, sep, j)
  {
    var k := FirstIndexFrom(s, sep, 0);
    assert !Contains(s[..k], sep) by {
      if Contains(s[..k], sep) {
        var j :| OccursAt(s[..k], sep, j);
        OccursInPrefix(s, k, sep, j);
      }
    }
    s[..k]
  }

  /** Python's `s.replace(pat, rep)`: every non-overlapping occurrence of pat,
      scanned left to right, is replaced by rep. */
  function ReplaceAll(s: string, pat: string, rep: string): (r: string)
    requires |pat| > 0
    decreases |s|
  {
    if |s| < |pat| then
      s
    else if s[..|pat|] == pat then
      rep + ReplaceAll(s[|pat|..], pat, rep)
    else
      [s[0]] + ReplaceAll(s[1..], pat, rep)
  }

  /** When pat does not occur in s, replace returns s unchanged. */
  lemma {:induction false} ReplaceAllAbsent(s: string, pat: string, rep: string)
    requires |pat| > 0 && !Contains(s, pat)
    ensures ReplaceAll(s, pat, rep) == s
    decreases |s|
  {
    if |s| >= |pat| {
      assert !OccursAt(s, pat, 0);
      NotContainsSlice(s, 1, |s|, pat);
      assert s[1..|s|] == s[1..];
      ReplaceAllAbsent(s[1..], pat, rep);
    }
  }

  /** strip() keeps a contiguous piece of its argument, so it adds no occurrence. */
  lemma StripNotContains(s: string, m: string)
    requires !Contains(s, m)
    ensures !Contains(Strip(s), m)
  {
    var l := LStrip(s);
    NotContainsSlice(s, |s| - |l|, |s|, m);
    assert s[|s| - |l|..|s|] == l;
    NotContainsSlice(l, 0, |Strip(s)|, m);
    assert l[0..|Strip(s)|] == Strip(s);
  }

  /** FirstIndexFrom is the unique index with its postcondition. */
  lemma FirstIndexUnique(s: string, m: string, i: nat, k: nat)
    requires i <= k <= |s|
    requires k < |s| ==> OccursAt(s, m, k)
    requires forall j :: i <= j < k ==> !OccursAt(s, m, j)
    ensures FirstIndexFrom(s, m, i) == k
  {
  }

  /** No occurrence of m starts inside a free x and runs into y. */
  lemma NoStraddle(x: string, y: string, m: string, j: int)
    requires |m| > 0 && y != [] && !Contains(x, m)
    requires forall j :: 0 < j < |m| ==> m[j] != y[0]
    requires 0 <= j < |x|
    ensures !OccursAt(x + y, m, j)
  {
    var s := x + y;
    if j + |m| <= |x| {
      assert x[j..j + |m|] == s[j..j + |m|];
      assert OccursAt(s, m, j) ==> OccursAt(x, m, j);
    } else if j + |m| <= |s| {
      assert s[j..j + |m|][|x| - j] == y[0];
    }
  }

  /** Occurrences past |x| in x + y are the occurrences in y. */
  lemma ShiftOccurs(x: string, y: string, m: string, j: int)
    requires |x| <= j
    ensures OccursAt(x + y, m, j) <==> OccursAt(y, m, j - |x|)
  {
    if j + |m| <= |x + y| {
      assert (x + y)[j..j + |m|] == y[j - |x|..j - |x| + |m|];
    }
  }

  /** Searching x + y for m when x holds no m and no occurrence can start in x and
      end in y (the first character of y appears in m only at position 0): the
      first occurrence is the first one in y. */
  lemma FirstIndexAfterFree(x: string, y: string, m: string)
    requires |m| > 0 && y != [] && !Contains(x, m)
    requires forall j :: 0 < j < |m| ==> m[j] != y[0]
    ensures FirstIndexFrom(x + y, m, 0) == |x| + FirstIndexFrom(y, m, 0)
  {
    var f := FirstIndexFrom(y, m, 0);
    var k := |x| + f;
    forall j | 0 <= j < k ensures !OccursAt(x + y, m, j) {
      if j < |x| {
        NoStraddle(x, y, m, j);
      } else {
        ShiftOccurs(x, y, m, j);
      }
    }
    if k < |x + y| {
      ShiftOccurs(x, y, m, k);
    }
    FirstIndexUnique(x + y, m, 0, k);
  }

  /** split keeps the part before a separator that follows a separator-free text. */
  lemma SplitHeadAfterFree(x: string, y: string, sep: string)
    requires |sep| > 0 && y != [] && !Contains(x, sep)
    requires forall j :: 0 < j < |sep| ==> sep[j] != y[0]
    ensures SplitHead(x + y, sep) == x + SplitHead(y, sep)
  {
    FirstIndexAfterFree(x, y, sep);
    var f := FirstIndexFrom(y, sep, 0);
    assert (x + y)[..|x| + f] == x + y[..f];
  }

  /** A string that starts with sep splits to the empty head. */
  lemma SplitHeadAtStart(y: string, sep: string)
    requires |sep| > 0 && StartsWith(y, sep)
    ensures SplitHead(y, sep) == ""
  {
    assert OccursAt(y, sep, 0);
  }

  /** Replacing the single character c by a text without c leaves no c behind,
      and adds no character that is in neither the input nor the replacement. */
  lemma {:induction false} ReplaceCharFree(s: string, c: char, rep: string, d: char)
    requires c !in rep
    ensures c !in ReplaceAll(s, [c], rep)
    ensures d !in s && d !in rep ==> d !in ReplaceAll(s, [c], rep)
    decreases |s|
  {
    if |s| >= 1 {
      ReplaceCharFree(s[1..], c, rep, d);
      if s[..1] == [c] {
        assert s[1..] == s[|[c]|..];
      } else {
        assert s[0] != c;
      }
    }
  }

  /** Replacing a single character by a single character keeps the length;
      deleting a single character shortens by one per occurrence. */
  lemma {:induction false} ReplaceCharLength(s: string, c: char, rep: string)
    requires |rep| <= 1
    ensures |ReplaceAll(s, [c], rep)| <= |s|
    ensures |rep| == 1 ==> |ReplaceAll(s, [c], rep)| == |s|
    decreases |s|
  {
    if |s| >= 1 {
      ReplaceCharLength(s[1..], c, rep);
      assert s[1..] == s[|[c]|..];
    }
  }

  /** Splitting a string that holds no separator keeps all of it. */
  lemma SplitHeadFree(s: string, sep: string)
    requires |sep| > 0 && !Contains(s, sep)
    ensures SplitHead(s, sep) == s
  {
  }

  /** A string lacking some character of m does not contain m. */
  lemma CharAbsent(s: string, m: string, c: char)
    requires c in m && c !in s
    ensures !Contains(s, m)
  {
    forall i | 0 <= i <= |s| - |m| ensures !OccursAt(s, m, i) {
      assert c !in s[i..i + |m|];
    }
  }

  /** A leading occurrence of the pattern is replaced, and the scan resumes after it. */
  lemma ReplaceAllLeading(pat: string, rest: string, rep: string)
    requires |pat| > 0
    ensures ReplaceAll(pat + rest, pat, rep) == rep + ReplaceAll(rest, pat, rep)
  {
    assert (pat + rest)[..|pat|] == pat;
    assert (pat + rest)[|pat|..] == rest;
  }

  /** Occurrences past the first character are the occurrences in the tail. */
  lemma OccursTail(s: string, m: string, j: int)
    requires s != [] && 1 <= j
    ensures OccursAt(s, m, j) <==> OccursAt(s[1..], m, j - 1)
  {
    if j + |m| <= |s| {
      assert s[1..][j - 1..] == s[j..];
      assert s[1..][j - 1..][..|m|] == s[j..j + |m|];
    }
  }

  /** Searching past a first character that starts no occurrence. */
  lemma FirstIndexSkip(s: string, m: string)
    requires s != [] && !OccursAt(s, m, 0)
    ensures FirstIndexFrom(s, m, 0) == 1 + FirstIndexFrom(s[1..], m, 0)
  {
    var f := FirstIndexFrom(s[1..], m, 0);
    forall j | 1 <= j < 1 + f ensures !OccursAt(s, m, j) {
      OccursTail(s, m, j);
    }
    if 1 + f < |s| {
      OccursTail(s, m, 1 + f);
    }
    FirstIndexUnique(s, m, 0, 1 + f);
  }

  /** replace works left to right without overlap: the text before the first
      occurrence is kept, that occurrence becomes rep, and the scan resumes
      right after it; without an occurrence the text is unchanged. */
  lemma ReplaceAllFirst(s: string, pat: string, rep: string)
    requires |pat| > 0
    ensures var k := FirstIndexFrom(s, pat, 0);
            (k == |s| ==> ReplaceAll(s, pat, rep) == s)
            && (k < |s| ==> ReplaceAll(s, pat, rep) == s[..k] + rep + ReplaceAll(s[k + |pat|..], pat, rep))
  {
    var k := FirstIndexFrom(s, pat, 0);
    if k < |s| {
      ReplaceAllAtFirst(s, k, pat, rep);
    } else {
      ReplaceAllNone(s, pat, rep);
    }
  }

  /** The first occurrence at k: the prefix before it is kept and rep takes its place. */
  lemma ReplaceAllAtFirst(s: string, k: nat, pat: string, rep: string)
    requires |pat| > 0 && k == FirstIndexFrom(s, pat, 0) && k < |s|
    ensures ReplaceAll(s, pat, rep) == s[..k] + rep + ReplaceAll(s[k + |pat|..], pat, rep)
  {
    assert OccursAt(s, pat, k);
    var tail := ReplaceAll(s[k + |pat|..], pat, rep);
    calc {
      ReplaceAll(s, pat, rep);
      { ReplaceAllKeepsPrefix(s, k, pat, rep); }
      s[..k] + ReplaceAll(s[k..], pat, rep);
      { ReplaceAtOccurrence(s, k, pat, rep); }
      s[..k] + (rep + tail);
      s[..k] + rep + tail;
    }
  }

  /** With no occurrence at all, replace leaves s unchanged. */
  lemma ReplaceAllNone(s: string, pat: string, rep: string)
    requires |pat| > 0 && FirstIndexFrom(s, pat, 0) >= |s|
    ensures ReplaceAll(s, pat, rep) == s
  {
    ReplaceAllKeepsPrefix(s, |s|, pat, rep);
    assert s[|s|..] == [] && s[..|s|] == s;
  }

  /** From an occurrence on, replace starts with rep and resumes after the pattern. */
  lemma ReplaceAtOccurrence(s: string, k: nat, pat: string, rep: string)
    requires |pat| > 0 && OccursAt(s, pat, k)
    ensures ReplaceAll(s[k..], pat, rep) == rep + ReplaceAll(s[k + |pat|..], pat, rep)
  {
    var rest := s[k + |pat|..];
    assert s[k..] == pat + rest;
    ReplaceAllLeading(pat, rest, rep);
  }

  /** A prefix s[..k] in which no occurrence starts passes through replace unchanged. */
  lemma {:induction false} ReplaceAllKeepsPrefix(s: string, k: nat, pat: string, rep: string)
    requires |pat| > 0 && k <= |s|
    requires forall j :: 0 <= j < k ==> !OccursAt(s, pat, j)
    ensures ReplaceAll(s, pat, rep) == s[..k] + ReplaceAll(s[k..], pat, rep)
    decreases k
  {
    if k == 0 {
      assert s[..0] == [] && s[0..] == s;
    } else if |s| < |pat| {
      assert ReplaceAll(s, pat, rep) == s;
      assert ReplaceAll(s[k..], pat, rep) == s[k..];
      assert s[..k] + s[k..] == s;
    } else {
      NoOccurrenceTail(s, k, pat);
      ReplaceAllKeepsPrefix(s[1..], k - 1, pat, rep);
      KeepsPrefixStep(s, k, pat, rep);
    }
  }

  /** Occurrence-free up to k in s means occurrence-free up to k - 1 in s[1..]. */
  lemma NoOccurrenceTail(s: string, k: nat, pat: string)
    requires 1 <= k <= |s|
    requires forall j :: 0 <= j < k ==> !OccursAt(s, pat, j)
    ensures forall j :: 0 <= j < k - 1 ==> !OccursAt(s[1..], pat, j)
  {
    forall j | 0 <= j < k - 1 ensures !OccursAt(s[1..], pat, j) {
      OccursTail(s, pat, j + 1);
    }
  }

  /** One step of ReplaceAllKeepsPrefix: a non-occurrence at 0 moves s[0] into the kept prefix. */
  lemma KeepsPrefixStep(s: string, k: nat, pat: string, rep: string)
    requires |pat| > 0 && 1 <= k <= |s| && |pat| <= |s| && !OccursAt(s, pat, 0)
    requires ReplaceAll(s[1..], pat, rep) == s[1..][..k - 1] + ReplaceAll(s[1..][k - 1..], pat, rep)
    ensures ReplaceAll(s, pat, rep) == s[..k] + ReplaceAll(s[k..], pat, rep)
  {
    assert ReplaceAll(s, pat, rep) == [s[0]] + ReplaceAll(s[1..], pat, rep);
    var t := ReplaceAll(s[k..], pat, rep);
    assert s[1..][k - 1..] == s[k..];
    calc {
      ReplaceAll(s, pat, rep);
      [s[0]] + (s[1..][..k - 1] + t);
      ([s[0]] + s[1..][..k - 1]) + t;
      { assert [s[0]] + s[1..][..k - 1] == s[..k]; }
      s[..k] + t;
    }
  }


  /** Replacing one character by one character: every occurrence is replaced
      and every other character is kept in place. */
  lemma {:induction false} ReplaceCharWise(s: string, c: char, d: char)
    ensures var r := ReplaceAll(s, [c], [d]);
            |r| == |s| && forall i :: 0 <= i < |s| ==> r[i] == (if s[i] == c then d else s[i])
    decreases |s|
  {
    if s != [] {
      ReplaceCharWise(s[1..], c, d);
      var t := ReplaceAll(s[1..], [c], [d]);
      var h := if s[0] == c then d else s[0];
      if s[..1] == [c] {
        assert s[|[c]|..] == s[1..];
      }
      assert ReplaceAll(s, [c], [d]) == [h] + t;
    }
  }
}

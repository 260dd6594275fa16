/**
 * ASCII models of the Python string operations that the screening logic
 * relies on: `str.lower`, `str.strip`, `str.split`, `str.splitlines`,
 * `str.split()` (no argument), `str.join`, `in` on strings, and the
 * maximal-run matching that `re.findall(r"\w+", ...)` performs.
 */
module Text {

  /** `str.isspace()` on ASCII: space, \t \n \v \f \r and the separators 0x1C..0x1F. */
  predicate IsSpace(c: char) {
    c == ' ' || ('\t' <= c <= '\r') || ('\U{1C}' <= c <= '\U{1F}')
  }

  /** The ASCII characters at which `str.splitlines()` breaks: \n \v \f \r and 0x1C..0x1E. */
  predicate IsLineBreak(c: char) {
    ('\n' <= c <= '\r') || ('\U{1C}' <= c <= '\U{1E}')
  }

  /** `\d` on ASCII. */
  predicate IsDigit(c: char) {
    '0' <= c <= '9'
  }

  /** `\w` on ASCII: letters, digits and the underscore. */
  predicate IsWordChar(c: char) {
    ('a' <= c <= 'z') || ('A' <= c <= 'Z') || IsDigit(c) || c == '_'
  }

  function LowerChar(c: char): char {
    if 'A' <= c <= 'Z' then (c as int + 32) as char else c
  }

  /** `str.lower()` on ASCII letters. */
  function Lower(s: string): (r: string)
    ensures |r| == |s|
  {
    if s == [] then [] else [LowerChar(s[0])] + Lower(s[1..])
  }

  /** `str.lower()` works character by character. */
  lemma {:induction false} LowerAt(s: string)
    ensures forall k :: 0 <= k < |s| ==> Lower(s)[k] == LowerChar(s[k])
  {
    if s != [] {
      LowerAt(s[1..]);
      assert forall k :: 1 <= k < |s| ==> Lower(s)[k] == Lower(s[1..])[k - 1];
    }
  }

  /** A text without upper-case letters is its own lower-case form. */
  lemma LowerOfLowerCase(s: string)
    requires forall k :: 0 <= k < |s| ==> !('A' <= s[k] <= 'Z')
    ensures Lower(s) == s
  {
    LowerAt(s);
  }

  /** `s.startswith(p)`. */
  predicate StartsWith(s: string, p: string) {
    |p| <= |s| && s[..|p|] == p
  }

  /** `p` occurs in `s` at index `i`. */
  predicate OccursAt(s: string, p: string, i: int) {
    0 <= i && i + |p| <= |s| && forall k :: 0 <= k < |p| ==> s[i + k] == p[k]
  }

  /** `p in s` for two strings. */
  predicate Contains(s: string, p: string) {
    exists i :: 0 <= i <= |s| - |p| && OccursAt(s, p, i)
  }

  /** `s.find(p)`: the index of the first occurrence of `p`, or -1. */
  function Find(s: string, p: string): (r: int)
    ensures r == -1 || 0 <= r <= |s| - |p|
    ensures r == -1 <==> !Contains(s, p)
    ensures r >= 0 ==> OccursAt(s, p, r)
    ensures r >= 0 ==> forall j :: 0 <= j < r ==> !OccursAt(s, p, j)
    decreases |s|
  {
    if |s| < |p| then -1
    else if OccursAt(s, p, 0) then 0
    else
      var k := Find(s[1..], p);
      assert forall i :: 1 <= i ==> (OccursAt(s, p, i) <==> OccursAt(s[1..], p, i - 1));
      if k < 0 then -1
      else
        assert OccursAt(s, p, k + 1);
        k + 1
  }

  /** `s.split(sep)` for a non-empty separator: the pieces between the occurrences of `sep`. */
  function Split(s: string, sep: string): (parts: seq<string>)
    requires sep != []
    ensures |parts| >= 1
    ensures forall k :: 0 <= k < |parts| ==> !Contains(parts[k], sep)
    ensures !Contains(s, sep) ==> parts == [s]
    decreases |s|
  {
    var i := Find(s, sep);
    if i < 0 then [s]
    else
      assert forall j :: OccursAt(s[..i], sep, j) ==> OccursAt(s, sep, j);
      [s[..i]] + Split(s[i + |sep|..], sep)
  }

  /** Number of leading whitespace characters. */
  function LeadingSpace(s: string): (k: nat)
    ensures k <= |s|
    ensures forall i :: 0 <= i < k ==> IsSpace(s[i])
    ensures k < |s| ==> !IsSpace(s[k])
  {
    if s == [] || !IsSpace(s[0]) then 0 else 1 + LeadingSpace(s[1..])
  }

  /** Number of trailing whitespace characters. */
  function TrailingSpace(s: string): (k: nat)
    ensures k <= |s|
    ensures forall i :: |s| - k <= i < |s| ==> IsSpace(s[i])
    ensures k < |s| ==> !IsSpace(s[|s| - 1 - k])
  {
    if s == [] || !IsSpace(s[|s| - 1]) then 0 else 1 + TrailingSpace(s[..|s| - 1])
  }

  /** Where `Strip(s)` starts in `s`. */
  function StripStart(s: string): nat {
    LeadingSpace(s)
  }

  /** Where `Strip(s)` ends in `s`. */
  function StripEnd(s: string): (e: nat)
    ensures StripStart(s) <= e <= |s|
  {
    if LeadingSpace(s) == |s| then |s| else |s| - TrailingSpace(s)
  }

  /** `str.strip()`: the slice between the leading and the trailing whitespace. */
  function Strip(s: string): (r: string)
    ensures r == s[StripStart(s)..StripEnd(s)]
  {
    s[StripStart(s)..StripEnd(s)]
  }

  /** Stripping twice is stripping once. */
  lemma StripIdempotent(s: string)
    ensures Strip(Strip(s)) == Strip(s)
  {
    var r := Strip(s);
    if r != [] {
      assert LeadingSpace(r) == 0;
      assert TrailingSpace(r) == 0;
    }
  }

  /** A string with no `p` in it has no `p` in any slice of it. */
  lemma NotContainsSlice(s: string, p: string, a: int, b: int)
    requires 0 <= a <= b <= |s|
    requires !Contains(s, p)
    ensures !Contains(s[a..b], p)
  {
    if Contains(s[a..b], p) {
      var i :| 0 <= i <= |s[a..b]| - |p| && OccursAt(s[a..b], p, i);
      assert OccursAt(s, p, a + i);
    }
  }

  /**
   * Gluing two strings free of `p` cannot create `p` when the character on
   * either side of the seam does not occur in `p`.
   */
  lemma NotContainsConcat(a: string, b: string, p: string)
    requires p != []
    requires !Contains(a, p) && !Contains(b, p)
    requires a == [] || b == [] || a[|a| - 1] !in p || b[0] !in p
    ensures !Contains(a + b, p)
  {
    forall i | 0 <= i <= |a + b| - |p|
      ensures !OccursAt(a + b, p, i)
    {
      if i + |p| <= |a| {
        assert !OccursAt(a, p, i);
        var k :| 0 <= k < |p| && a[i + k] != p[k];
        assert (a + b)[i + k] == a[i + k];
      } else if i >= |a| {
        assert !OccursAt(b, p, i - |a|);
        var k :| 0 <= k < |p| && b[i - |a| + k] != p[k];
        assert (a + b)[i + k] == b[i - |a| + k];
      } else {
        // An occurrence here would straddle the seam and so contain both a[|a| - 1] and b[0].
        SeamInOccurrence(a, b, p, i);
      }
    }
  }

  lemma SeamInOccurrence(a: string, b: string, p: string, i: int)
    requires 0 <= i < |a| < i + |p| <= |a + b|
    ensures OccursAt(a + b, p, i) ==> a[|a| - 1] in p && b[0] in p
  {
    if OccursAt(a + b, p, i) {
      var left, right := |a| - 1 - i, |a| - i;
      assert (a + b)[i + left] == p[left] && (a + b)[i + left] == a[|a| - 1];
      assert (a + b)[i + right] == p[right] && (a + b)[i + right] == b[0];
    }
  }

  /** `sep.join(xs)`. */
  function Join(xs: seq<string>, sep: string): string {
    if xs == [] then [] else if |xs| == 1 then xs[0] else xs[0] + sep + Join(xs[1..], sep)
  }

  /** Joining pieces free of `p` with a separator free of `p` and of `p`'s characters at its ends gives no `p`. */
  lemma {:induction false} JoinNotContains(xs: seq<string>, sep: string, p: string)
    requires p != [] && sep != []
    requires forall k :: 0 <= k < |xs| ==> !Contains(xs[k], p)
    requires !Contains(sep, p) && sep[0] !in p && sep[|sep| - 1] !in p
    ensures !Contains(Join(xs, sep), p)
  {
    if |xs| > 1 {
      JoinNotContains(xs[1..], sep, p);
      NotContainsConcat(xs[0], sep, p);
      NotContainsConcat(xs[0] + sep, Join(xs[1..], sep), p);
      assert Join(xs, sep) == (xs[0] + sep) + Join(xs[1..], sep);
    }
  }

  /** Length of the run of characters satisfying `inRun` at the front of `s`. */
  function RunLength(s: string, inRun: char -> bool): (n: nat)
    ensures n <= |s|
    ensures forall j :: 0 <= j < n ==> inRun(s[j])
    ensures n < |s| ==> !inRun(s[n])
  {
    if s == [] || !inRun(s[0]) then 0 else 1 + RunLength(s[1..], inRun)
  }

  /**
   * The maximal runs of characters satisfying `inRun`, left to right: what
   * `re.findall(r"[...]+", s)` returns, and `s.split()` for non-space runs.
   */
  function Runs(s: string, inRun: char -> bool): (r: seq<string>)
    ensures forall k :: 0 <= k < |r| ==> r[k] != []
    ensures forall k, j :: 0 <= k < |r| && 0 <= j < |r[k]| ==> inRun(r[k][j])
    decreases |s|
  {
    if s == [] then []
    else if !inRun(s[0]) then Runs(s[1..], inRun)
    else
      var n := RunLength(s, inRun);
      [s[..n]] + Runs(s[n..], inRun)
  }

  /** A run length is fixed by where the run stops: `m` leading characters in the run and the next one not. */
  lemma {:induction false} RunLengthIs(s: string, inRun: char -> bool, m: nat)
    requires m <= |s| && forall j :: 0 <= j < m ==> inRun(s[j])
    requires m < |s| ==> !inRun(s[m])
    ensures RunLength(s, inRun) == m
  {
    if m > 0 {
      RunLengthIs(s[1..], inRun, m - 1);
    }
  }

  /** A non-empty text made only of run characters is one run. */
  lemma RunsOfOneRun(w: string, inRun: char -> bool)
    requires w != [] && forall j :: 0 <= j < |w| ==> inRun(w[j])
    ensures Runs(w, inRun) == [w]
  {
    RunLengthIs(w, inRun, |w|);
    assert w[..|w|] == w && w[|w|..] == [];
  }

  /** A character outside the runs ends every run: the runs on its two sides are separate. */
  lemma {:induction false} RunsSplitAt(a: string, c: char, b: string, inRun: char -> bool)
    requires !inRun(c)
    ensures Runs(a + [c] + b, inRun) == Runs(a, inRun) + Runs(b, inRun)
    decreases |a|
  {
    var s := a + [c] + b;
    if a == [] {
      assert s[0] == c && s[1..] == b;
    } else if !inRun(a[0]) {
      assert s[0] == a[0] && s[1..] == a[1..] + [c] + b;
      RunsSplitAt(a[1..], c, b, inRun);
    } else {
      var n := RunLength(a, inRun);
      assert forall j :: 0 <= j < n ==> s[j] == a[j];
      assert n < |s| && !inRun(s[n]) by {
        if n < |a| { assert s[n] == a[n]; } else { assert s[n] == c; }
      }
      RunLengthIs(s, inRun, n);
      assert s[..n] == a[..n];
      assert s[n..] == a[n..] + [c] + b;
      RunsSplitAt(a[n..], c, b, inRun);
    }
  }

  /** The characters of `s` that satisfy `keep`, in order. */
  function Keep(s: string, keep: char -> bool): (r: string)
    ensures |r| <= |s|
  {
    if s == [] then [] else (if keep(s[0]) then [s[0]] else []) + Keep(s[1..], keep)
  }

  function Concat(xs: seq<string>): string {
    if xs == [] then [] else xs[0] + Concat(xs[1..])
  }

  lemma {:induction false} KeepAppend(a: string, b: string, keep: char -> bool)
    ensures Keep(a + b, keep) == Keep(a, keep) + Keep(b, keep)
  {
    if a != [] {
      assert (a + b)[0] == a[0];
      assert (a + b)[1..] == a[1..] + b;
      KeepAppend(a[1..], b, keep);
    } else {
      assert a + b == b;
    }
  }

  lemma {:induction false} KeepAll(a: string, keep: char -> bool)
    requires forall j :: 0 <= j < |a| ==> keep(a[j])
    ensures Keep(a, keep) == a
  {
    if a != [] {
      KeepAll(a[1..], keep);
    }
  }

  /** The runs, laid end to end, are exactly the characters that satisfy `inRun`. */
  lemma {:induction false} RunsCoverKept(s: string, inRun: char -> bool)
    ensures Concat(Runs(s, inRun)) == Keep(s, inRun)
    decreases |s|
  {
    if s == [] {
    } else if !inRun(s[0]) {
      RunsCoverKept(s[1..], inRun);
    } else {
      var n := RunLength(s, inRun);
      RunsCoverKept(s[n..], inRun);
      assert s == s[..n] + s[n..];
      KeepAppend(s[..n], s[n..], inRun);
      KeepAll(s[..n], inRun);
    }
  }

  /** `s.split()`: the maximal runs of non-whitespace characters. */
  function Words(s: string): (ws: seq<string>)
    ensures forall k, j :: 0 <= k < |ws| && 0 <= j < |ws[k]| ==> !IsSpace(ws[k][j])
  {
    Runs(s, c => !IsSpace(c))
  }

  /** Index of the first line break in `s`, or `|s|`. */
  function FirstBreak(s: string): (k: nat)
    ensures k <= |s|
    ensures forall j :: 0 <= j < k ==> !IsLineBreak(s[j])
    ensures k < |s| ==> IsLineBreak(s[k])
  {
    if s == [] || IsLineBreak(s[0]) then 0 else 1 + FirstBreak(s[1..])
  }

  /** `s.splitlines()` on ASCII: "\r\n" is one break, and a final break adds no empty line. */
  function SplitLines(s: string): (lines: seq<string>)
    ensures forall k, j :: 0 <= k < |lines| && 0 <= j < |lines[k]| ==> !IsLineBreak(lines[k][j])
    decreases |s|
  {
    if s == [] then []
    else
      var k := FirstBreak(s);
      if k == |s| then [s]
      else
        var width := if s[k] == '\r' && k + 1 < |s| && s[k + 1] == '\n' then 2 else 1;
        [s[..k]] + SplitLines(s[k + width..])
  }

  /** `[p.strip() for p in parts if p.strip()]`. */
  function NonBlankStripped(parts: seq<string>): (r: seq<string>)
    ensures |r| <= |parts|
    ensures forall k :: 0 <= k < |r| ==> r[k] != [] && Strip(r[k]) == r[k]
  {
    if parts == [] then []
    else
      var p := Strip(parts[0]);
      StripIdempotent(parts[0]);
      (if p != [] then [p] else []) + NonBlankStripped(parts[1..])
  }
}

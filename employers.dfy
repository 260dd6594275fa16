/**
 * Employer names typed by the applicant and the disallowed-company check:
 * `parse_experiences_lines`, `tokenize_to_words`, `phrase_in_tokens`,
 * `count_unallowed_matches`, and the decision the pipeline takes from them.
 */
module Employers {
  import opened Text

  /** At most the first two entries of `xs`. */
  function Take2(xs: seq<string>): (r: seq<string>)
    ensures |r| <= 2 && r <= xs
    ensures |xs| <= 2 ==> r == xs
  {
    if |xs| <= 2 then xs else xs[..2]
  }

  /**
   * The name one line yields in the colon layout: the stripped text before
   * the line's first ':', when it is longer than two characters.
   */
  function ColonName(line: string): (r: seq<string>)
    ensures |r| <= 1
  {
    var l := Strip(line);
    var colon := Find(l, ":");
    if colon < 0 then []
    else
      var lhs := Strip(l[..colon]);
      if |lhs| > 2 then [lhs] else []
  }

  /** A line's name is longer than two characters, stripped, and holds no ':'. */
  lemma ColonNameShape(line: string)
    ensures forall n :: n in ColonName(line) ==> |n| > 2 && ':' !in n && Strip(n) == n
  {
    var l := Strip(line);
    var colon := Find(l, ":");
    if colon >= 0 {
      assert ':' !in l[..colon] by {
        forall j | 0 <= j < colon
          ensures l[j] != ':'
        {
          assert !OccursAt(l, ":", j);
        }
      }
      StripIdempotent(l[..colon]);
      NotInSlice(l[..colon], ':');
    }
  }

  /** Stripping keeps out a character that was not there. */
  lemma NotInSlice(s: string, c: char)
    requires c !in s
    ensures c !in Strip(s)
  {
  }

  /** The names of every line, in order, each line giving `nameOf` of it. */
  function NamesOf(nameOf: string -> seq<string>, lines: seq<string>): seq<string> {
    if lines == [] then [] else nameOf(lines[0]) + NamesOf(nameOf, lines[1..])
  }

  /** The names of every line, in order, before the cut at two. */
  function ColonNames(lines: seq<string>): seq<string> {
    NamesOf(ColonName, lines)
  }

  /** Every line-layout name is longer than two characters, stripped, and holds no ':'. */
  lemma {:induction false} ColonNamesShape(lines: seq<string>)
    ensures forall n :: n in ColonNames(lines) ==> |n| > 2 && ':' !in n && Strip(n) == n
  {
    if lines != [] {
      ColonNameShape(lines[0]);
      ColonNamesShape(lines[1..]);
    }
  }

  lemma {:induction false} NamesOfAppend(nameOf: string -> seq<string>, a: seq<string>, b: seq<string>)
    ensures NamesOf(nameOf, a + b) == NamesOf(nameOf, a) + NamesOf(nameOf, b)
  {
    if a != [] {
      assert (a + b)[1..] == a[1..] + b;
      NamesOfAppend(nameOf, a[1..], b);
    } else {
      assert a + b == b;
    }
  }

  /** What `parse_experiences_lines` returns. */
  function ParseExperiences(text: string): (names: seq<string>)
    ensures |names| <= 2
  {
    var t := Strip(text);
    if Contains(t, ";") then Take2(NonBlankStripped(Split(t, ";")))
    else Take2(ColonNames(SplitLines(t)))
  }

  /**
   * `parse_experiences_lines`: the first one or two non-blank `;` segments
   * when the text has a ';', otherwise the first one or two company names
   * found before a ':' on a line.
   */
  method ParseExperiencesLines(experience: string) returns (found: seq<string>)
    ensures found == ParseExperiences(experience)
  {
    var t := Strip(experience);
    if Find(t, ";") >= 0 {
      found := FirstTwo(NonBlankStripped(Split(t, ";")));
    } else {
      found := FirstTwoColonNames(SplitLines(t));
    }
  }

  /** The semicolon layout: keep segments until two are found. */
  method FirstTwo(parts: seq<string>) returns (found: seq<string>)
    ensures found == Take2(parts)
  {
    found := [];
    var i := 0;
    while i < |parts|
      invariant 0 <= i <= |parts|
      invariant found == parts[..i] && |found| < 2
    {
      found := found + [parts[i]];
      i := i + 1;
      if |found| == 2 {
        break;
      }
      assert found == parts[..i];
    }
    assert i < |parts| ==> found == parts[..2];
    assert i == |parts| ==> parts[..i] == parts;
  }

  /** The line layout: keep the names before a ':' until two are found. */
  method FirstTwoColonNames(lines: seq<string>) returns (found: seq<string>)
    ensures found == Take2(ColonNames(lines))
  {
    found := [];
    var i := 0;
    while i < |lines|
      invariant 0 <= i <= |lines|
      invariant found == NamesOf(ColonName, lines[..i]) && |found| < 2
    {
      NamesOfAppend(ColonName, lines[..i], [lines[i]]);
      assert lines[..i + 1] == lines[..i] + [lines[i]];
      var name := [];
      var l := Strip(lines[i]);
      var colon := Find(l, ":");
      if colon >= 0 {
        var lhs := Strip(l[..colon]);
        if |lhs| > 2 {
          name := [lhs];
        }
      }
      assert NamesOf(ColonName, [lines[i]]) == name;
      found := found + name;
      i := i + 1;
      if |found| == 2 {
        break;
      }
    }
    if |found| == 2 {
      Take2OfPrefix(ColonName, lines, i);
    } else {
      assert lines[..i] == lines;
    }
  }

  /** Once the first `i` lines give two names, the later lines change nothing. */
  lemma Take2OfPrefix(nameOf: string -> seq<string>, lines: seq<string>, i: int)
    requires 0 <= i <= |lines| && |NamesOf(nameOf, lines[..i])| == 2
    ensures Take2(NamesOf(nameOf, lines)) == NamesOf(nameOf, lines[..i])
  {
    NamesOfAppend(nameOf, lines[..i], lines[i..]);
    assert lines[..i] + lines[i..] == lines;
    Take2Append(NamesOf(nameOf, lines[..i]), NamesOf(nameOf, lines[i..]));
  }

  lemma Take2Append(a: seq<string>, b: seq<string>)
    requires |a| == 2
    ensures Take2(a + b) == a
  {
    assert (a + b)[..2] == a;
  }

  /** At most two names, each non-empty and stripped, whichever layout the text uses. */
  lemma ParsedNamesShape(text: string)
    ensures |ParseExperiences(text)| <= 2
    ensures forall n :: n in ParseExperiences(text) ==> n != [] && Strip(n) == n
  {
    var t := Strip(text);
    if Contains(t, ";") {
      var r := NonBlankStripped(Split(t, ";"));
      assert forall n :: n in Take2(r) ==> n in r;
    } else {
      var r := ColonNames(SplitLines(t));
      ColonNamesShape(SplitLines(t));
      assert forall n :: n in Take2(r) ==> n in r;
    }
  }

  /**
   * In the semicolon layout no name holds a ';'; in the line layout every name
   * is longer than two characters and holds no ':'.
   */
  lemma ParsedNamesByLayout(text: string)
    ensures Contains(Strip(text), ";") ==>
      forall n :: n in ParseExperiences(text) ==> !Contains(n, ";")
    ensures !Contains(Strip(text), ";") ==>
      forall n :: n in ParseExperiences(text) ==> |n| > 2 && ':' !in n
  {
    var t := Strip(text);
    if Contains(t, ";") {
      var parts := Split(t, ";");
      NonBlankStrippedNotContains(parts, ";");
      var r := NonBlankStripped(parts);
      assert forall n :: n in Take2(r) ==> n in r;
    } else {
      var r := ColonNames(SplitLines(t));
      ColonNamesShape(SplitLines(t));
      assert forall n :: n in Take2(r) ==> n in r;
    }
  }

  /** Stripping and dropping blank pieces keeps them free of `p`. */
  lemma {:induction false} NonBlankStrippedNotContains(parts: seq<string>, p: string)
    requires forall k :: 0 <= k < |parts| ==> !Contains(parts[k], p)
    ensures forall n :: n in NonBlankStripped(parts) ==> !Contains(n, p)
  {
    if parts != [] {
      var s := parts[0];
      NotContainsSlice(s, p, StripStart(s), StripEnd(s));
      NonBlankStrippedNotContains(parts[1..], p);
    }
  }

  /** Splitting at the first occurrence of a single-character separator. */
  lemma SplitAtFirst(a: string, b: string, sep: char)
    requires sep !in a
    ensures Split(a + [sep] + b, [sep]) == [a] + Split(b, [sep])
  {
    var s := a + [sep] + b;
    assert OccursAt(s, [sep], |a|);
    forall j | 0 <= j < |a|
      ensures !OccursAt(s, [sep], j)
    {
      assert s[j] == a[j] && a[j] in a;
      assert [sep][0] == sep;
    }
    assert s[..|a|] == a;
    assert s[|a| + 1..] == b;
  }

  /**
   * Two stripped, non-empty segments joined by ';' come back whole, whatever
   * ':' text they hold: the semicolon layout keeps the job titles.
   */
  lemma SemicolonPairKeptWhole(a: string, b: string)
    requires a != [] && b != [] && Strip(a) == a && Strip(b) == b
    requires ';' !in a && ';' !in b
    ensures ParseExperiences(a + ";" + b) == [a, b]
  {
    var s := a + ";" + b;
    assert !IsSpace(a[0]) by {
      assert LeadingSpace(a) == 0;
    }
    assert !IsSpace(b[|b| - 1]) by {
      assert LeadingSpace(b) == 0;
      assert TrailingSpace(b) == 0;
    }
    assert s[0] == a[0] && s[|s| - 1] == b[|b| - 1];
    assert LeadingSpace(s) == 0;
    assert TrailingSpace(s) == 0;
    assert Strip(s) == s;
    assert OccursAt(s, ";", |a|);
    SplitAtFirst(a, b, ';');
    assert !Contains(b, ";") by {
      forall j | 0 <= j <= |b| - 1
        ensures !OccursAt(b, ";", j)
      {
        assert b[j] != ';';
      }
    }
    assert Split(s, ";") == [a, b];
    assert NonBlankStripped([b]) == [b];
    assert NonBlankStripped([a, b]) == [a] + NonBlankStripped([b]);
  }

  /** `tokenize_to_words`: the maximal runs of `\w` characters. */
  function Tokenize(text: string): (tokens: seq<string>)
    ensures forall k, j :: 0 <= k < |tokens| && 0 <= j < |tokens[k]| ==> IsWordChar(tokens[k][j])
    ensures forall k :: 0 <= k < |tokens| ==> tokens[k] != []
  {
    Runs(text, IsWordChar)
  }

  /** The word characters of a text are exactly its tokens laid end to end. */
  lemma TokensCoverWordChars(text: string)
    ensures Concat(Tokenize(text)) == Keep(text, IsWordChar)
  {
    RunsCoverKept(text, IsWordChar);
  }

  /** A non-word character ends a token: the text on each side is tokenized on its own. */
  lemma TokensSplitAtNonWord(a: string, c: char, b: string)
    requires !IsWordChar(c)
    ensures Tokenize(a + [c] + b) == Tokenize(a) + Tokenize(b)
  {
    RunsSplitAt(a, c, b, IsWordChar);
  }

  /** A non-empty text of word characters is a single token: tokens are maximal runs. */
  lemma WordIsOneToken(w: string)
    requires w != [] && forall j :: 0 <= j < |w| ==> IsWordChar(w[j])
    ensures Tokenize(w) == [w]
  {
    RunsOfOneRun(w, IsWordChar);
  }

  /** `phrase` occurs in `tokens` as a contiguous slice starting at `i`. */
  predicate SliceAt(phrase: seq<string>, tokens: seq<string>, i: int) {
    0 <= i <= |tokens| - |phrase| && tokens[i..i + |phrase|] == phrase
  }

  /** `phrase` is non-empty and occurs in `tokens` as a contiguous slice. */
  predicate PhraseOccurs(phrase: seq<string>, tokens: seq<string>) {
    |phrase| > 0 && exists i :: 0 <= i <= |tokens| - |phrase| && SliceAt(phrase, tokens, i)
  }

  /** `phrase_in_tokens`: scan every window of `tokens` for `phrase`. */
  method PhraseInTokens(phrase: seq<string>, tokens: seq<string>) returns (r: bool)
    ensures r <==> PhraseOccurs(phrase, tokens)
  {
    var n := |phrase|;
    if n == 0 {
      return false;
    }
    var i := 0;
    while i < |tokens| - n + 1
      invariant 0 <= i
      invariant forall j :: 0 <= j < i ==> !SliceAt(phrase, tokens, j)
    {
      if tokens[i..i + n] == phrase {
        assert SliceAt(phrase, tokens, i);
        return true;
      }
      i := i + 1;
    }
    return false;
  }

  /** A phrase found in some tokens is still found when more tokens surround them. */
  lemma PhraseOccursInContext(phrase: seq<string>, before: seq<string>, tokens: seq<string>, after: seq<string>)
    requires PhraseOccurs(phrase, tokens)
    ensures PhraseOccurs(phrase, before + tokens + after)
  {
    var i :| 0 <= i <= |tokens| - |phrase| && SliceAt(phrase, tokens, i);
    var all := before + tokens + after;
    assert all[|before| + i..|before| + i + |phrase|] == tokens[i..i + |phrase|];
    assert SliceAt(phrase, all, |before| + i);
  }

  /** A non-empty phrase always occurs in itself. */
  lemma PhraseOccursInItself(phrase: seq<string>)
    requires phrase != []
    ensures PhraseOccurs(phrase, phrase)
  {
    assert phrase[0..|phrase|] == phrase;
    assert SliceAt(phrase, phrase, 0);
  }

  /** A listed phrase matches a text when its lower-cased tokens occur in the text's lower-cased tokens. */
  predicate PhraseMatches(phrase: string, text: string) {
    PhraseOccurs(Tokenize(Lower(phrase)), Tokenize(Lower(text)))
  }

  /** The distinct listed phrases that match `text`. */
  function MatchedPhrases(text: string, phrases: seq<string>): set<string> {
    set p | p in phrases && PhraseMatches(p, text)
  }

  /**
   * `count_unallowed_matches`: the distinct listed phrases that match the
   * text, and how many there are.
   */
  method CountUnallowedMatches(text: string, phrases: seq<string>) returns (count: nat, matched: set<string>)
    ensures matched == MatchedPhrases(text, phrases)
    ensures count == |matched|
  {
    var tokensText := Tokenize(Lower(text));
    matched := {};
    var i := 0;
    while i < |phrases|
      invariant 0 <= i <= |phrases|
      invariant matched == MatchedPhrases(text, phrases[..i])
    {
      MatchedPhrasesSnoc(text, phrases[..i], phrases[i]);
      assert phrases[..i + 1] == phrases[..i] + [phrases[i]];
      var tokensPhrase := Tokenize(Lower(phrases[i]));
      var hit := PhraseInTokens(tokensPhrase, tokensText);
      if hit {
        matched := matched + {phrases[i]};
      }
      i := i + 1;
    }
    assert phrases[..i] == phrases;
    count := |matched|;
  }

  /** Scanning one more phrase adds it to the matches exactly when it matches. */
  lemma MatchedPhrasesSnoc(text: string, phrases: seq<string>, p: string)
    ensures MatchedPhrases(text, phrases + [p])
         == MatchedPhrases(text, phrases) + (if PhraseMatches(p, text) then {p} else {})
  {
  }

  /** A subset is no larger than its superset. */
  lemma {:induction false} SubsetCardinality<T>(a: set<T>, b: set<T>)
    requires a <= b
    ensures |a| <= |b|
    decreases |b|
  {
    if a != {} {
      var x :| x in a;
      SubsetCardinality(a - {x}, b - {x});
    }
  }

  /** The distinct entries of a sequence are no more than its length. */
  lemma {:induction false} DistinctAtMostLength<T>(xs: seq<T>)
    ensures |set x | x in xs| <= |xs|
  {
    if xs != [] {
      DistinctAtMostLength(xs[1..]);
      assert (set x | x in xs) == (set x | x in xs[1..]) + {xs[0]};
    }
  }

  /** The match count is at most the number of distinct listed phrases, and at most the list's length. */
  lemma MatchCountBounded(text: string, phrases: seq<string>)
    ensures |MatchedPhrases(text, phrases)| <= |set p | p in phrases|
    ensures |MatchedPhrases(text, phrases)| <= |phrases|
  {
    SubsetCardinality(MatchedPhrases(text, phrases), set p | p in phrases);
    DistinctAtMostLength(phrases);
  }

  /**
   * The disallowed-company decision of `process_applicants`: when names were
   * parsed from the experience text, reject iff one of them is a listed entry
   * verbatim; otherwise reject iff at least two distinct entries match the
   * resume text.
   */
  predicate EmployerRejected(experience: string, resumeText: string, unallowed: seq<string>) {
    var names := ParseExperiences(experience);
    if names != [] then exists k :: 0 <= k < |names| && names[k] in unallowed
    else |MatchedPhrases(resumeText, unallowed)| >= 2
  }

  /** A parsed name that is a listed entry rejects the applicant, whatever the resume says. */
  lemma ListedNameRejects(experience: string, resumeText: string, unallowed: seq<string>, k: int)
    requires 0 <= k < |ParseExperiences(experience)|
    requires ParseExperiences(experience)[k] in unallowed
    ensures EmployerRejected(experience, resumeText, unallowed)
  {
  }

  /**
   * When names were parsed, the resume text plays no part: two resumes get
   * the same decision.
   */
  lemma ParsedNamesIgnoreResume(experience: string, resume1: string, resume2: string, unallowed: seq<string>)
    requires ParseExperiences(experience) != []
    ensures EmployerRejected(experience, resume1, unallowed) == EmployerRejected(experience, resume2, unallowed)
  {
  }

  /** With an empty list nobody is rejected. */
  lemma EmptyListRejectsNobody(experience: string, resumeText: string)
    ensures !EmployerRejected(experience, resumeText, [])
  {
    assert MatchedPhrases(resumeText, []) == {};
  }
}

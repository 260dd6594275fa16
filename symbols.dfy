/**
 * The `$` and `%` checks of `get_found_symbols`. The two regular expressions
 * are written out as languages, `re.search` as "some slice of the text is in
 * the language", and each search is shown to reduce to a condition on two
 * adjacent characters.
 */
module Symbols {
  import opened Text

  predicate AllDigits(s: string) {
    forall k :: 0 <= k < |s| ==> IsDigit(s[k])
  }

  /** `(\.\d+)?`: empty, or a '.' followed by one or more digits. */
  predicate OptDecimal(r: string) {
    r == [] || (|r| >= 2 && r[0] == '.' && AllDigits(r[1..]))
  }

  /** `(,\d{3})*(\.\d+)?`: any number of comma groups, then an optional decimal part. */
  predicate GroupsThenDecimal(r: string)
    decreases |r|
  {
    OptDecimal(r) || (|r| >= 4 && r[0] == ',' && AllDigits(r[1..4]) && GroupsThenDecimal(r[4..]))
  }

  /** After the '$' of `w`, `a` digits (one to three) and then the comma groups and decimal part. */
  predicate MoneySplit(w: string, a: int) {
    1 <= a <= 3 && a < |w| && AllDigits(w[1..a + 1]) && GroupsThenDecimal(w[a + 1..])
  }

  /** The language of `\$\d{1,3}(,\d{3})*(\.\d+)?`. */
  predicate IsMoney(w: string) {
    |w| >= 2 && w[0] == '$' && exists a :: 1 <= a <= 3 && MoneySplit(w, a)
  }

  /** `a` digits at the front of `w`, then the decimal part, then the final '%'. */
  predicate PercentSplit(w: string, a: int) {
    1 <= a < |w| && AllDigits(w[..a]) && OptDecimal(w[a..|w| - 1])
  }

  /** The language of `\d+(\.\d+)?%`. */
  predicate IsPercent(w: string) {
    |w| >= 2 && w[|w| - 1] == '%' && exists a :: 1 <= a < |w| && PercentSplit(w, a)
  }

  /** `re.search(money_pattern, text)` finds a match. */
  predicate MoneyFound(text: string) {
    exists i, j :: 0 <= i <= j <= |text| && IsMoney(text[i..j])
  }

  /** `re.search(percent_pattern, text)` finds a match. */
  predicate PercentFound(text: string) {
    exists i, j :: 0 <= i <= j <= |text| && IsPercent(text[i..j])
  }

  /** Some '$' is immediately followed by a digit. */
  predicate DollarThenDigit(text: string) {
    exists i :: 0 <= i < |text| - 1 && text[i] == '$' && IsDigit(text[i + 1])
  }

  /** Some digit is immediately followed by '%'. */
  predicate DigitThenPercent(text: string) {
    exists i :: 0 <= i < |text| - 1 && IsDigit(text[i]) && text[i + 1] == '%'
  }

  /** The money pattern matches somewhere exactly when a '$' is followed by a digit. */
  lemma MoneyFoundIff(text: string)
    ensures MoneyFound(text) <==> DollarThenDigit(text)
  {
    if MoneyFound(text) {
      var i, j :| 0 <= i <= j <= |text| && IsMoney(text[i..j]);
      var w := text[i..j];
      var a :| 1 <= a <= 3 && MoneySplit(w, a);
      assert w[1..a + 1][0] == w[1];
      assert text[i] == w[0] && text[i + 1] == w[1];
    }
    if DollarThenDigit(text) {
      var i :| 0 <= i < |text| - 1 && text[i] == '$' && IsDigit(text[i + 1]);
      var w := text[i..i + 2];
      assert |w| == 2 && w[0] == '$' && w[1] == text[i + 1];
      assert AllDigits(w[1..2]);
      assert OptDecimal(w[2..]);
      assert MoneySplit(w, 1);
    }
  }

  /** The percent pattern matches somewhere exactly when a digit is followed by '%'. */
  lemma PercentFoundIff(text: string)
    ensures PercentFound(text) <==> DigitThenPercent(text)
  {
    if PercentFound(text) {
      var i, j :| 0 <= i <= j <= |text| && IsPercent(text[i..j]);
      PercentEndsDigitPercent(text[i..j]);
      assert text[j - 2] == text[i..j][j - i - 2] && text[j - 1] == text[i..j][j - i - 1];
    }
    if DigitThenPercent(text) {
      var i :| 0 <= i < |text| - 1 && IsDigit(text[i]) && text[i + 1] == '%';
      var w := text[i..i + 2];
      assert w[..1] == [text[i]];
      assert w[1..1] == [];
      assert PercentSplit(w, 1);
    }
  }

  /** A percentage ends with a digit and then '%'. */
  lemma PercentEndsDigitPercent(w: string)
    requires IsPercent(w)
    ensures IsDigit(w[|w| - 2]) && w[|w| - 1] == '%'
  {
    var a :| 1 <= a < |w| && PercentSplit(w, a);
    var r := w[a..|w| - 1];
    if r == [] {
      assert w[..a][a - 1] == w[|w| - 2];
    } else {
      assert r[1..][|r| - 2] == w[|w| - 2];
    }
  }

  /** The places a symbol was found, in the order the source appends them. */
  function Places(inPdf: bool, inAnswers: bool): (p: seq<string>)
    ensures p == [] <==> !inPdf && !inAnswers
  {
    (if inPdf then ["pdf"] else []) + (if inAnswers then ["answers"] else [])
  }

  /**
   * `get_found_symbols`: for each symbol the caller asked about, where its
   * pattern matched, leaving the symbol out when it matched nowhere.
   */
  function GetFoundSymbols(pdfText: string, answersText: string, checkDollar: bool, checkPercent: bool)
    : (found: map<string, seq<string>>)
    ensures "$" in found <==> checkDollar && (MoneyFound(pdfText) || MoneyFound(answersText))
    ensures "%" in found <==> checkPercent && (PercentFound(pdfText) || PercentFound(answersText))
    ensures forall s :: s in found ==> s == "$" || s == "%"
  {
    var dollar := Places(MoneyFound(pdfText), MoneyFound(answersText));
    var percent := Places(PercentFound(pdfText), PercentFound(answersText));
    var withDollar: map<string, seq<string>> := if checkDollar && dollar != [] then map["$" := dollar] else map[];
    if checkPercent && percent != [] then withDollar["%" := percent] else withDollar
  }

  /** `s` is one of the three in-order, non-empty subsequences of ["pdf", "answers"]. */
  predicate IsPlaceList(s: seq<string>) {
    s == ["pdf"] || s == ["answers"] || s == ["pdf", "answers"]
  }

  /** Every value is a non-empty, in-order subsequence of ["pdf", "answers"], naming the texts that matched. */
  lemma FoundSymbolsPlaces(pdfText: string, answersText: string, checkDollar: bool, checkPercent: bool)
    ensures var found := GetFoundSymbols(pdfText, answersText, checkDollar, checkPercent);
      forall s :: s in found ==> IsPlaceList(found[s])
    ensures var found := GetFoundSymbols(pdfText, answersText, checkDollar, checkPercent);
      "$" in found ==> ("pdf" in found["$"] <==> MoneyFound(pdfText)) && ("answers" in found["$"] <==> MoneyFound(answersText))
    ensures var found := GetFoundSymbols(pdfText, answersText, checkDollar, checkPercent);
      "%" in found ==> ("pdf" in found["%"] <==> PercentFound(pdfText)) && ("answers" in found["%"] <==> PercentFound(answersText))
  {
  }

  /** Nothing matches in the empty text. */
  lemma NothingFoundInEmpty()
    ensures !MoneyFound("") && !PercentFound("")
  {
  }

  /**
   * The pipeline passes "" as the answers text, so every symbol it finds is
   * reported in the resume text only, and found exactly by the adjacent-character test.
   */
  lemma PipelineSymbolsFromPdfOnly(text: string, checkDollar: bool, checkPercent: bool)
    ensures var found := GetFoundSymbols(text, "", checkDollar, checkPercent);
      (forall s :: s in found ==> found[s] == ["pdf"])
      && ("$" in found <==> checkDollar && DollarThenDigit(text))
      && ("%" in found <==> checkPercent && DigitThenPercent(text))
  {
    NothingFoundInEmpty();
    MoneyFoundIff(text);
    PercentFoundIff(text);
  }
}

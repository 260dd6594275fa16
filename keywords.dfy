/**
 * The keyword stages of the pipeline: `get_found_required_with_locations`,
 * `get_found_optional_with_locations` and `semantic_keyword_match`. The
 * language model is a parameter: how it splits a text into tokens, and the
 * similarity of a token to a keyword text.
 */
module Keywords {
  import opened Text
  import opened Symbols

  /** The language model: the tokens of a text, and a token's similarity to a keyword text. */
  datatype Nlp = Nlp(tokens: string -> seq<string>, similarity: (string, string) -> real)

  /** The similarity at or above which a token counts as the keyword. */
  const Threshold: real := 0.7

  /** Some token of `doc` is similar enough to `keyword`. */
  predicate AnyHit(nlp: Nlp, doc: seq<string>, keyword: string) {
    exists k :: 0 <= k < |doc| && nlp.similarity(doc[k], keyword) >= Threshold
  }

  /** Where a listed keyword is found: its stripped, lower-cased text checked against each document. */
  function KeywordPlaces(nlp: Nlp, pdfText: string, answersText: string, keyword: string): seq<string> {
    var query := Lower(Strip(keyword));
    Places(AnyHit(nlp, nlp.tokens(pdfText), query), AnyHit(nlp, nlp.tokens(answersText), query))
  }

  /** A listed keyword is looked up at all: it is not blank. */
  predicate Looked(keyword: string) {
    Strip(keyword) != []
  }

  /** The keywords found somewhere, each with the places it was found, keyed by the keyword as listed. */
  function FoundPlaces(nlp: Nlp, pdfText: string, answersText: string, keywords: seq<string>): map<string, seq<string>> {
    map kw | kw in keywords && Looked(kw) && KeywordPlaces(nlp, pdfText, answersText, kw) != []
      :: KeywordPlaces(nlp, pdfText, answersText, kw)
  }

  /** Every non-blank keyword is found somewhere. */
  predicate AllFound(nlp: Nlp, pdfText: string, answersText: string, keywords: seq<string>) {
    forall k :: 0 <= k < |keywords| && Looked(keywords[k]) ==>
      KeywordPlaces(nlp, pdfText, answersText, keywords[k]) != []
  }

  /** `any(token.similarity(doc) >= threshold for token in tokens)`. */
  method AnyTokenHit(nlp: Nlp, doc: seq<string>, keyword: string) returns (hit: bool)
    ensures hit <==> AnyHit(nlp, doc, keyword)
  {
    var k := 0;
    while k < |doc|
      invariant 0 <= k <= |doc|
      invariant forall j :: 0 <= j < k ==> nlp.similarity(doc[j], keyword) < Threshold
    {
      if nlp.similarity(doc[k], keyword) >= Threshold {
        return true;
      }
      k := k + 1;
    }
    return false;
  }

  /** Where one keyword is found, as the loop body of both lookups computes it. */
  method LookUp(nlp: Nlp, docPdf: seq<string>, docAnswers: seq<string>, keyword: string)
    returns (places: seq<string>)
    ensures places == Places(AnyHit(nlp, docPdf, Lower(Strip(keyword))), AnyHit(nlp, docAnswers, Lower(Strip(keyword))))
  {
    var query := Lower(Strip(keyword));
    places := [];
    var inPdf := AnyTokenHit(nlp, docPdf, query);
    if inPdf {
      places := places + ["pdf"];
    }
    var inAnswers := AnyTokenHit(nlp, docAnswers, query);
    if inAnswers {
      places := places + ["answers"];
    }
  }

  /** Scanning one more keyword adds it, with its places, exactly when it is looked up and found. */
  lemma FoundPlacesSnoc(nlp: Nlp, pdfText: string, answersText: string, keywords: seq<string>, kw: string)
    ensures FoundPlaces(nlp, pdfText, answersText, keywords + [kw])
         == if Looked(kw) && KeywordPlaces(nlp, pdfText, answersText, kw) != []
            then FoundPlaces(nlp, pdfText, answersText, keywords)[kw := KeywordPlaces(nlp, pdfText, answersText, kw)]
            else FoundPlaces(nlp, pdfText, answersText, keywords)
  {
  }

  /** One more keyword keeps "all found" exactly when it is blank or found. */
  lemma AllFoundSnoc(nlp: Nlp, pdfText: string, answersText: string, keywords: seq<string>, kw: string)
    ensures AllFound(nlp, pdfText, answersText, keywords + [kw])
        <==> AllFound(nlp, pdfText, answersText, keywords)
             && (Looked(kw) ==> KeywordPlaces(nlp, pdfText, answersText, kw) != [])
  {
    var all := keywords + [kw];
    assert all[|keywords|] == kw;
    assert forall k :: 0 <= k < |keywords| ==> all[k] == keywords[k];
  }

  /**
   * `get_found_required_with_locations`: the keywords found, with where, and
   * whether every non-blank keyword was found.
   */
  method GetFoundRequiredWithLocations(nlp: Nlp, pdfText: string, answersText: string, keywords: seq<string>)
    returns (found: map<string, seq<string>>, allFound: bool)
    ensures found == FoundPlaces(nlp, pdfText, answersText, keywords)
    ensures allFound <==> AllFound(nlp, pdfText, answersText, keywords)
  {
    var docPdf := nlp.tokens(pdfText);
    var docAnswers := nlp.tokens(answersText);
    found := map[];
    var missingAny := false;
    var i := 0;
    while i < |keywords|
      invariant 0 <= i <= |keywords|
      invariant found == FoundPlaces(nlp, pdfText, answersText, keywords[..i])
      invariant missingAny <==> !AllFound(nlp, pdfText, answersText, keywords[..i])
    {
      var kw := keywords[i];
      FoundPlacesSnoc(nlp, pdfText, answersText, keywords[..i], kw);
      AllFoundSnoc(nlp, pdfText, answersText, keywords[..i], kw);
      assert keywords[..i + 1] == keywords[..i] + [kw];
      i := i + 1;
      if Strip(kw) == [] {
        continue;
      }
      var places := LookUp(nlp, docPdf, docAnswers, kw);
      if places != [] {
        found := found[kw := places];
      } else {
        missingAny := true;
      }
    }
    assert keywords[..i] == keywords;
    allFound := !missingAny;
  }

  /** `get_found_optional_with_locations`: the keywords found, with where. */
  method GetFoundOptionalWithLocations(nlp: Nlp, pdfText: string, answersText: string, keywords: seq<string>)
    returns (found: map<string, seq<string>>)
    ensures found == FoundPlaces(nlp, pdfText, answersText, keywords)
  {
    var docPdf := nlp.tokens(pdfText);
    var docAnswers := nlp.tokens(answersText);
    found := map[];
    var i := 0;
    while i < |keywords|
      invariant 0 <= i <= |keywords|
      invariant found == FoundPlaces(nlp, pdfText, answersText, keywords[..i])
    {
      var kw := keywords[i];
      FoundPlacesSnoc(nlp, pdfText, answersText, keywords[..i], kw);
      assert keywords[..i + 1] == keywords[..i] + [kw];
      i := i + 1;
      if Strip(kw) == [] {
        continue;
      }
      var places := LookUp(nlp, docPdf, docAnswers, kw);
      if places != [] {
        found := found[kw := places];
      }
    }
    assert keywords[..i] == keywords;
  }

  /**
   * The found map names only non-blank listed keywords, each with a
   * non-empty in-order subsequence of ["pdf", "answers"]; and every keyword
   * is found exactly when it is a key.
   */
  lemma FoundPlacesShape(nlp: Nlp, pdfText: string, answersText: string, keywords: seq<string>)
    ensures var found := FoundPlaces(nlp, pdfText, answersText, keywords);
      forall kw :: kw in found ==> kw in keywords && Looked(kw) && IsPlaceList(found[kw])
    ensures AllFound(nlp, pdfText, answersText, keywords) <==>
      forall k :: 0 <= k < |keywords| && Looked(keywords[k]) ==> keywords[k] in FoundPlaces(nlp, pdfText, answersText, keywords)
  {
    var found := FoundPlaces(nlp, pdfText, answersText, keywords);
    forall kw | kw in found
      ensures IsPlaceList(found[kw])
    {
      var query := Lower(Strip(kw));
      var a := AnyHit(nlp, nlp.tokens(pdfText), query);
      var b := AnyHit(nlp, nlp.tokens(answersText), query);
      assert found[kw] == Places(a, b);
    }
  }

  /** With no required keywords, every applicant has all of them. */
  lemma NoKeywordsAllFound(nlp: Nlp, pdfText: string, answersText: string)
    ensures AllFound(nlp, pdfText, answersText, [])
    ensures FoundPlaces(nlp, pdfText, answersText, []) == map[]
  {
  }

  /** Some token of the text is similar enough to one of the non-blank keywords, stripped but not lower-cased. */
  predicate SemanticMatch(nlp: Nlp, pdfText: string, answersText: string, keywords: seq<string>) {
    var doc := nlp.tokens(pdfText + " " + answersText);
    var kwDocs := NonBlankStripped(keywords);
    exists t, k :: 0 <= t < |doc| && 0 <= k < |kwDocs| && nlp.similarity(doc[t], kwDocs[k]) >= Threshold
  }

  /** `semantic_keyword_match`: scan every token against every keyword, stopping at the first close one. */
  method SemanticKeywordMatch(nlp: Nlp, pdfText: string, answersText: string, keywords: seq<string>)
    returns (r: bool)
    ensures r <==> SemanticMatch(nlp, pdfText, answersText, keywords)
  {
    var doc := nlp.tokens(pdfText + " " + answersText);
    var kwDocs := NonBlankStripped(keywords);
    var t := 0;
    while t < |doc|
      invariant 0 <= t <= |doc|
      invariant forall t', k :: 0 <= t' < t && 0 <= k < |kwDocs| ==> nlp.similarity(doc[t'], kwDocs[k]) < Threshold
    {
      var k := 0;
      while k < |kwDocs|
        invariant 0 <= k <= |kwDocs|
        invariant forall k' :: 0 <= k' < k ==> nlp.similarity(doc[t], kwDocs[k']) < Threshold
      {
        if nlp.similarity(doc[t], kwDocs[k]) >= Threshold {
          return true;
        }
        k := k + 1;
      }
      t := t + 1;
    }
    return false;
  }

  /** With no non-blank related keyword, nothing matches, whatever the texts say. */
  lemma NoRelatedKeywordsNoMatch(nlp: Nlp, pdfText: string, answersText: string, keywords: seq<string>)
    requires forall k :: 0 <= k < |keywords| ==> Strip(keywords[k]) == []
    ensures !SemanticMatch(nlp, pdfText, answersText, keywords)
  {
    assert NonBlankStripped(keywords) == [] by {
      NonBlankStrippedOfBlanks(keywords);
    }
  }

  lemma {:induction false} NonBlankStrippedOfBlanks(parts: seq<string>)
    requires forall k :: 0 <= k < |parts| ==> Strip(parts[k]) == []
    ensures NonBlankStripped(parts) == []
  {
    if parts != [] {
      NonBlankStrippedOfBlanks(parts[1..]);
    }
  }
}

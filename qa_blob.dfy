/**
 * The consolidated answers blob: `----------`-separated pieces, each a
 * `heading: content` pair. A "Question N" heading opens a pending question, an
 * "Answer N" heading answers it, and any other heading is itself the question.
 * Models `is_ignored_question`, `filter_ignored_questions` and
 * `has_two_or_more_short_answers`.
 */
module QaBlob {
  import opened Text

  /** The token that separates the pieces of an answers blob. */
  const Separator: string := "----------"

  /** The yes/no openings that make a question ignorable. */
  const YesNoStarts: seq<string> := ["do you ", "are you ", "have you ", "did you "]

  /**
   * A question is ignorable when its lower-cased text contains "check all
   * that apply" or "how many", or starts with one of the yes/no openings.
   */
  predicate IsIgnoredQuestion(question: string) {
    var q := Lower(question);
    Contains(q, "check all that apply")
    || (exists k :: 0 <= k < |YesNoStarts| && StartsWith(q, YesNoStarts[k]))
    || Contains(q, "how many")
  }

  /** The test ignores case: a question and its lower-cased form are ignorable alike. */
  lemma IgnoredQuestionIgnoresCase(question: string)
    ensures IsIgnoredQuestion(Lower(question)) <==> IsIgnoredQuestion(question)
  {
    LowerAt(question);
    LowerOfLowerCase(Lower(question));
  }

  /** A blob piece after parsing: skipped (blank or without ':'), or a heading and its content. */
  datatype Piece = Skipped | Labelled(heading: string, content: string)

  /** Strip the piece, split it once on ':' and strip both sides. */
  function ParsePiece(raw: string): (p: Piece)
    ensures p.Labelled? ==> Strip(p.heading) == p.heading && Strip(p.content) == p.content
  {
    var block := Strip(raw);
    if block == [] then Skipped
    else
      var colon := Find(block, ":");
      if colon < 0 then Skipped
      else
        StripIdempotent(block[..colon]);
        StripIdempotent(block[colon + 1..]);
        Labelled(Strip(block[..colon]), Strip(block[colon + 1..]))
  }

  /** Every piece of a blob, parsed. */
  function ParsePieces(raws: seq<string>): (ps: seq<Piece>)
    ensures |ps| == |raws|
    ensures forall k :: 0 <= k < |raws| ==> ps[k] == ParsePiece(raws[k])
  {
    seq(|raws|, k requires 0 <= k < |raws| => ParsePiece(raws[k]))
  }

  /** How a heading is read: "question ..." and "answer ..." (any case) are markers, anything else is a question. */
  datatype Kind = QuestionMarker | AnswerMarker | InlineQuestion

  function KindOf(heading: string): Kind {
    var l := Lower(heading);
    if StartsWith(l, "question ") then QuestionMarker
    else if StartsWith(l, "answer ") then AnswerMarker
    else InlineQuestion
  }

  /** A question with its answer. */
  datatype QaUnit = QaUnit(question: string, answer: string)

  /** The unit (if any) that one piece contributes, given the pending question ("" when there is none). */
  function Emitted(piece: Piece, pending: string): seq<QaUnit> {
    match piece
    case Skipped => []
    case Labelled(heading, content) =>
      match KindOf(heading)
      case QuestionMarker => []
      case AnswerMarker =>
        if pending != "" && !IsIgnoredQuestion(pending) then [QaUnit(pending, content)] else []
      case InlineQuestion =>
        if !IsIgnoredQuestion(heading) then [QaUnit(heading, content)] else []
  }

  /** The pending question after one piece: a question marker sets it, an answer marker clears it. */
  function PendingAfter(piece: Piece, pending: string): string {
    match piece
    case Skipped => pending
    case Labelled(heading, content) =>
      match KindOf(heading)
      case QuestionMarker => content
      case AnswerMarker => ""
      case InlineQuestion => pending
  }

  /**
   * The units that `filter_ignored_questions` keeps from `pieces`, given the
   * question text still pending.
   */
  function KeptUnits(pieces: seq<Piece>, pending: string): (units: seq<QaUnit>)
    ensures |units| <= |pieces|
    decreases |pieces|
  {
    if pieces == [] then []
    else Emitted(pieces[0], pending) + KeptUnits(pieces[1..], PendingAfter(pieces[0], pending))
  }

  /** Consuming piece `i` moves its unit from the rest of `pieces` to the units kept so far. */
  lemma KeptUnitsStep(pieces: seq<Piece>, i: int, pending: string, kept: seq<QaUnit>, target: seq<QaUnit>)
    requires 0 <= i < |pieces|
    requires kept + KeptUnits(pieces[i..], pending) == target
    ensures (kept + Emitted(pieces[i], pending)) + KeptUnits(pieces[i + 1..], PendingAfter(pieces[i], pending)) == target
  {
    assert pieces[i..][1..] == pieces[i + 1..];
  }

  /** Each unit as the two lines "Question: q" and "Answer: a", in order. */
  function Render(units: seq<QaUnit>): (lines: seq<string>)
    ensures |lines| == 2 * |units|
    ensures forall k :: 0 <= k < |units| ==>
      lines[2 * k] == "Question: " + units[k].question && lines[2 * k + 1] == "Answer: " + units[k].answer
  {
    if units == [] then []
    else
      var u := units[|units| - 1];
      Render(units[..|units| - 1]) + ["Question: " + u.question, "Answer: " + u.answer]
  }

  /** Rendering one more unit appends its two lines. */
  lemma RenderSnoc(units: seq<QaUnit>, u: QaUnit)
    ensures Render(units + [u]) == Render(units) + ["Question: " + u.question, "Answer: " + u.answer]
  {
    assert (units + [u])[..|units|] == units;
  }

  /** What `filter_ignored_questions` returns for a blob. */
  function FilteredAnswers(answers: string): string {
    Join(Render(KeptUnits(ParsePieces(Split(answers, Separator)), "")), "\n")
  }

  /** `filter_ignored_questions`: rebuild the blob from the units whose question is not ignorable. */
  method FilterIgnoredQuestions(answers: string) returns (filtered: string)
    ensures filtered == FilteredAnswers(answers)
  {
    var blocks := Split(answers, Separator);
    ghost var pieces := ParsePieces(blocks);
    var lines: seq<string> := [];
    ghost var units: seq<QaUnit> := [];
    ghost var target := KeptUnits(pieces, "");
    var pending := "";
    var i := 0;
    while i < |blocks|
      invariant 0 <= i <= |blocks|
      invariant units + KeptUnits(pieces[i..], pending) == target
      invariant lines == Render(units)
    {
      KeptUnitsStep(pieces, i, pending, units, target);
      var piece := ParsePiece(blocks[i]);
      ghost var before, pendingBefore := units, pending;
      i := i + 1;
      match piece {
        case Skipped =>
        case Labelled(heading, content) =>
          match KindOf(heading)
          case QuestionMarker =>
            pending := content;
          case AnswerMarker =>
            if pending != "" && !IsIgnoredQuestion(pending) {
              RenderSnoc(units, QaUnit(pending, content));
              lines := lines + ["Question: " + pending, "Answer: " + content];
              units := units + [QaUnit(pending, content)];
            }
            pending := "";
          case InlineQuestion =>
            if !IsIgnoredQuestion(heading) {
              RenderSnoc(units, QaUnit(heading, content));
              lines := lines + ["Question: " + heading, "Answer: " + content];
              units := units + [QaUnit(heading, content)];
            }
      }
      assert units == before + Emitted(piece, pendingBefore);
      assert pending == PendingAfter(piece, pendingBefore);
    }
    assert KeptUnits(pieces[i..], pending) == [];
    assert units == target;
    filtered := Join(lines, "\n");
  }

  /** No kept unit has an ignorable question. */
  lemma {:induction false} KeptQuestionsNotIgnored(pieces: seq<Piece>, pending: string)
    ensures forall u :: u in KeptUnits(pieces, pending) ==> !IsIgnoredQuestion(u.question)
    decreases |pieces|
  {
    if pieces != [] {
      KeptQuestionsNotIgnored(pieces[1..], PendingAfter(pieces[0], pending));
    }
  }

  /**
   * Every inline question that is not ignorable is kept, in order: an inline
   * piece adds exactly its own unit in front of what the rest yields.
   */
  lemma InlineQuestionKept(heading: string, content: string, rest: seq<Piece>, pending: string)
    requires KindOf(heading) == InlineQuestion && !IsIgnoredQuestion(heading)
    ensures KeptUnits([Labelled(heading, content)] + rest, pending)
         == [QaUnit(heading, content)] + KeptUnits(rest, pending)
  {
    assert ([Labelled(heading, content)] + rest)[1..] == rest;
  }

  /**
   * A "Question" marker with a non-blank, non-ignorable question, followed by
   * an "Answer" marker, keeps exactly that question with the answer's text.
   */
  lemma MarkedPairKept(qHeading: string, question: string, aHeading: string, answer: string, rest: seq<Piece>, pending: string)
    requires KindOf(qHeading) == QuestionMarker && KindOf(aHeading) == AnswerMarker
    requires question != "" && !IsIgnoredQuestion(question)
    ensures KeptUnits([Labelled(qHeading, question), Labelled(aHeading, answer)] + rest, pending)
         == [QaUnit(question, answer)] + KeptUnits(rest, "")
  {
    var pieces := [Labelled(qHeading, question), Labelled(aHeading, answer)] + rest;
    assert pieces[1..][1..] == rest;
  }

  /** An "Answer" marker with no question pending keeps nothing and leaves nothing pending. */
  lemma OrphanAnswerDropped(heading: string, content: string, rest: seq<Piece>)
    requires KindOf(heading) == AnswerMarker
    ensures KeptUnits([Labelled(heading, content)] + rest, "") == KeptUnits(rest, "")
  {
    assert ([Labelled(heading, content)] + rest)[1..] == rest;
  }

  /**
   * The number of short answers `has_two_or_more_short_answers` sees in
   * `pieces` (without its early stop). An ignorable question is skipped
   * without clearing the pending question.
   */
  function ShortCount(pieces: seq<Piece>, pending: string, minWords: int): nat
    decreases |pieces|
  {
    if pieces == [] then 0
    else
      match pieces[0]
      case Skipped => ShortCount(pieces[1..], pending, minWords)
      case Labelled(heading, content) =>
        match KindOf(heading)
        case QuestionMarker => ShortCount(pieces[1..], content, minWords)
        case AnswerMarker =>
          if IsIgnoredQuestion(pending) then ShortCount(pieces[1..], pending, minWords)
          else (if |Words(content)| < minWords then 1 else 0) + ShortCount(pieces[1..], "", minWords)
        case InlineQuestion =>
          if IsIgnoredQuestion(heading) then ShortCount(pieces[1..], pending, minWords)
          else (if |Words(content)| < minWords then 1 else 0) + ShortCount(pieces[1..], pending, minWords)
  }

  /**
   * An "Answer" marker after an ignorable question is skipped, and the
   * ignorable question stays pending for the next marker.
   */
  lemma IgnoredQuestionStaysPending(heading: string, content: string, rest: seq<Piece>, pending: string, minWords: int)
    requires KindOf(heading) == AnswerMarker && IsIgnoredQuestion(pending)
    ensures ShortCount([Labelled(heading, content)] + rest, pending, minWords) == ShortCount(rest, pending, minWords)
  {
    assert ([Labelled(heading, content)] + rest)[1..] == rest;
  }

  /** The number of short answers in a whole blob. */
  function BlobShortCount(answers: string, minWords: int): nat {
    ShortCount(ParsePieces(Split(answers, Separator)), "", minWords)
  }

  /**
   * `has_two_or_more_short_answers`: true exactly when at least two
   * non-ignorable units have fewer than `minWords` words; stopping at the
   * second one does not change the answer.
   */
  method HasTwoOrMoreShortAnswers(answers: string, minWords: int) returns (r: bool)
    ensures r <==> BlobShortCount(answers, minWords) >= 2
  {
    var blocks := Split(answers, Separator);
    ghost var pieces := ParsePieces(blocks);
    var shortCount := 0;
    var pending := "";
    var i := 0;
    while i < |blocks|
      invariant 0 <= i <= |blocks|
      invariant 0 <= shortCount < 2
      invariant shortCount + ShortCount(pieces[i..], pending, minWords) == ShortCount(pieces, "", minWords)
    {
      assert pieces[i..][1..] == pieces[i + 1..];
      var piece := ParsePiece(blocks[i]);
      i := i + 1;
      match piece
      case Skipped =>
      case Labelled(heading, content) =>
        match KindOf(heading)
        case QuestionMarker =>
          pending := content;
        case AnswerMarker =>
          if !IsIgnoredQuestion(pending) {
            if |Words(content)| < minWords {
              shortCount := shortCount + 1;
              if shortCount >= 2 {
                return true;
              }
            }
            pending := "";
          }
        case InlineQuestion =>
          if !IsIgnoredQuestion(heading) && |Words(content)| < minWords {
            shortCount := shortCount + 1;
            if shortCount >= 2 {
              return true;
            }
          }
    }
    return shortCount >= 2;
  }

  /** Each piece contributes at most one short answer. */
  lemma {:induction false} ShortCountAtMostPieces(pieces: seq<Piece>, pending: string, minWords: int)
    ensures ShortCount(pieces, pending, minWords) <= |pieces|
    decreases |pieces|
  {
    if pieces != [] {
      var rest := pieces[1..];
      match pieces[0]
      case Skipped =>
        ShortCountAtMostPieces(rest, pending, minWords);
      case Labelled(heading, content) =>
        match KindOf(heading)
        case QuestionMarker =>
          ShortCountAtMostPieces(rest, content, minWords);
        case AnswerMarker =>
          ShortCountAtMostPieces(rest, "", minWords);
          ShortCountAtMostPieces(rest, pending, minWords);
        case InlineQuestion =>
          ShortCountAtMostPieces(rest, pending, minWords);
    }
  }

  /** A blob without the separator is one piece, so it never has two short answers. */
  lemma NoSeparatorNeverTwoShort(answers: string, minWords: int)
    requires !Contains(answers, Separator)
    ensures BlobShortCount(answers, minWords) <= 1
  {
    ShortCountAtMostPieces(ParsePieces(Split(answers, Separator)), "", minWords);
  }

  /** Both sides of a piece parsed from separator-free text are separator-free. */
  lemma ParsePieceSeparatorFree(raw: string)
    requires !Contains(raw, Separator)
    ensures ParsePiece(raw).Labelled? ==>
      !Contains(ParsePiece(raw).heading, Separator) && !Contains(ParsePiece(raw).content, Separator)
  {
    var block := Strip(raw);
    NotContainsSlice(raw, Separator, StripStart(raw), StripEnd(raw));
    var colon := Find(block, ":");
    if block != [] && colon >= 0 {
      var l, c := block[..colon], block[colon + 1..];
      NotContainsSlice(block, Separator, 0, colon);
      NotContainsSlice(block, Separator, colon + 1, |block|);
      assert block[colon + 1..|block|] == c;
      NotContainsSlice(l, Separator, StripStart(l), StripEnd(l));
      NotContainsSlice(c, Separator, StripStart(c), StripEnd(c));
    }
  }

  /** Separator-free pieces and pending text give separator-free units. */
  lemma {:induction false} KeptUnitsSeparatorFree(pieces: seq<Piece>, pending: string)
    requires forall k :: 0 <= k < |pieces| && pieces[k].Labelled? ==>
      !Contains(pieces[k].heading, Separator) && !Contains(pieces[k].content, Separator)
    requires !Contains(pending, Separator)
    ensures forall u :: u in KeptUnits(pieces, pending) ==>
      !Contains(u.question, Separator) && !Contains(u.answer, Separator)
    decreases |pieces|
  {
    if pieces != [] {
      var rest := pieces[1..];
      assert forall k :: 0 <= k < |rest| ==> rest[k] == pieces[k + 1];
      KeptUnitsSeparatorFree(rest, PendingAfter(pieces[0], pending));
    }
  }

  /** "Question: " + q and "Answer: " + a are separator-free when q and a are. */
  lemma LabelledLineSeparatorFree(prefix: string, text: string)
    requires prefix == "Question: " || prefix == "Answer: "
    requires !Contains(text, Separator)
    ensures !Contains(prefix + text, Separator)
  {
    assert prefix[|prefix| - 1] == ' ';
    assert !OccursAt(prefix, Separator, 0) by {
      assert prefix[0] != Separator[0];
    }
    NotContainsConcat(prefix, text, Separator);
  }

  /** Rendering separator-free units gives separator-free lines. */
  lemma RenderSeparatorFree(units: seq<QaUnit>)
    requires forall u :: u in units ==> !Contains(u.question, Separator) && !Contains(u.answer, Separator)
    ensures forall k :: 0 <= k < |Render(units)| ==> !Contains(Render(units)[k], Separator)
  {
    var lines := Render(units);
    forall k | 0 <= k < |lines|
      ensures !Contains(lines[k], Separator)
    {
      var u := units[k / 2];
      assert u in units;
      if k % 2 == 0 {
        assert lines[2 * (k / 2)] == "Question: " + u.question;
        LabelledLineSeparatorFree("Question: ", u.question);
      } else {
        assert lines[2 * (k / 2) + 1] == "Answer: " + u.answer;
        LabelledLineSeparatorFree("Answer: ", u.answer);
      }
    }
  }

  /** The filtered blob never contains the separator. */
  lemma FilteredAnswersSeparatorFree(answers: string)
    ensures !Contains(FilteredAnswers(answers), Separator)
  {
    var blocks := Split(answers, Separator);
    var pieces := ParsePieces(blocks);
    forall k | 0 <= k < |pieces| && pieces[k].Labelled?
      ensures !Contains(pieces[k].heading, Separator) && !Contains(pieces[k].content, Separator)
    {
      ParsePieceSeparatorFree(blocks[k]);
    }
    assert !OccursAt("", Separator, 0);
    KeptUnitsSeparatorFree(pieces, "");
    RenderSeparatorFree(KeptUnits(pieces, ""));
    assert !OccursAt("\n", Separator, 0);
    JoinNotContains(Render(KeptUnits(pieces, "")), "\n", Separator);
  }

  /**
   * The pipeline asks `has_two_or_more_short_answers` about the output of
   * `filter_ignored_questions`, which has no separator: it never sees two
   * short answers.
   */
  lemma ShortAnswerGateNeverRejects(answers: string, minWords: int)
    ensures BlobShortCount(FilteredAnswers(answers), minWords) < 2
  {
    FilteredAnswersSeparatorFree(answers);
    NoSeparatorNeverTwoShort(FilteredAnswers(answers), minWords);
  }
}

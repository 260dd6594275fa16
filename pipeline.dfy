/**
 * `process_applicants`: the table is normalised, then every applicant row
 * goes through the screening stages in order, the first failing stage
 * dropping the row. Six counters record how many rows got past each stage.
 * The file system, the text extractors, language detection, the language
 * model and the list of disallowed companies are parameters.
 */
module Pipeline {
  import opened Text
  import QaBlob
  import Employers
  import Symbols
  import Keywords
  import Tables

  /** The screening options the user chose. */
  datatype Config = Config(
    checkDollar: bool,
    checkPercent: bool,
    requiredText: string,
    optionalText: string,
    relatedText: string,
    excludeAnswers: bool)

  /**
   * What the pipeline reads from outside: whether a named file exists in the
   * resume folder, the text of a PDF or DOCX file, whether a text is detected
   * as English, the language model, and the disallowed company names.
   */
  datatype Env = Env(
    isFile: string -> bool,
    pdfText: string -> string,
    docxText: string -> string,
    detectsEnglish: string -> bool,
    nlp: Keywords.Nlp,
    unallowed: seq<string>)

  /** An applicant who passed every stage, with what was found. */
  datatype Applicant = Applicant(
    row: Tables.Row,
    foundSymbols: map<string, string>,
    foundRequired: map<string, seq<string>>,
    foundOptional: map<string, seq<string>>)

  /** The stage at which a row stopped, or its result when it passed them all. */
  datatype Outcome =
    | NoFile
    | Unsupported
    | NotEnglish
    | ShortAnswers
    | Employer
    | MissingSymbol
    | MissingRequired
    | NotRelated
    | Pass(result: Applicant)

  /** How far a row got: the number of stages before the one that stopped it. */
  function Rank(o: Outcome): nat {
    match o
    case NoFile => 0
    case Unsupported => 1
    case NotEnglish => 2
    case ShortAnswers => 3
    case Employer => 4
    case MissingSymbol => 5
    case MissingRequired => 6
    case NotRelated => 7
    case Pass(_) => 8
  }

  /** The fewest characters a text must have, after stripping, to be checked for English. */
  const MinChars: nat := 50

  /** The fewest words an answer needs not to be short. */
  const MinWords: nat := 20

  /** `is_english_text`: a stripped text of at least 50 characters that the detector calls English. */
  predicate IsEnglishText(text: string, detectsEnglish: string -> bool) {
    var t := Strip(text);
    |t| >= MinChars && detectsEnglish(t)
  }

  /** A text shorter than 50 characters after stripping is never taken as English. */
  lemma ShortTextNotEnglish(text: string, detectsEnglish: string -> bool)
    requires |Strip(text)| < MinChars
    ensures !IsEnglishText(text, detectsEnglish)
  {
  }

  /** The index of the last `c` in `s`, or -1. */
  function LastIndex(s: string, c: char): (r: int)
    ensures -1 <= r < |s|
    ensures r >= 0 ==> s[r] == c
    ensures forall k :: r < k < |s| ==> s[k] != c
  {
    if s == [] then -1
    else if s[|s| - 1] == c then |s| - 1
    else LastIndex(s[..|s| - 1], c)
  }

  /**
   * `os.path.splitext(path)[1]`: from the last '.' of the last path
   * component, unless everything before that '.' in the component is dots.
   */
  function Extension(path: string): (r: string)
    ensures r == [] || (|r| <= |path| && r == path[|path| - |r|..] && r[0] == '.')
    ensures forall k :: 1 <= k < |r| ==> r[k] != '.' && r[k] != '/'
  {
    var sep := LastIndex(path, '/');
    var dot := LastIndex(path, '.');
    if dot > sep && exists k :: sep < k < dot && path[k] != '.' then path[dot..] else []
  }

  /** `[kw.strip() for kw in text.split("\n") if kw.strip()]`. */
  function KeywordList(text: string): (r: seq<string>)
    ensures forall k :: 0 <= k < |r| ==> r[k] != [] && Strip(r[k]) == r[k]
  {
    NonBlankStripped(Split(text, "\n"))
  }

  /** `", ".join(places)` for each symbol found. */
  function JoinedPlaces(found: map<string, seq<string>>): map<string, string> {
    map s | s in found :: Join(found[s], ", ")
  }

  /** The resume text: by extension, from the PDF or the DOCX reader. */
  function FileText(env: Env, filename: string): string {
    if Lower(Extension(filename)) == ".pdf" then env.pdfText(filename) else env.docxText(filename)
  }

  /** The answers text the stages use: "" when answers are excluded, else the filtered answers. */
  function AnswersText(cfg: Config, row: Tables.Row): string {
    if cfg.excludeAnswers then "" else QaBlob.FilteredAnswers(Tables.Cell(row, "answers"))
  }

  /** The text checked for English: the resume, then a space and the answers when there are any. */
  function CombinedText(fileText: string, answers: string): string {
    if answers != [] then fileText + " " + answers else fileText
  }

  /** The text searched for `$` and `%`. */
  function SymbolText(cfg: Config, fileText: string, answers: string): string {
    if cfg.excludeAnswers then fileText else fileText + " " + answers
  }

  /** The stages after a readable resume: English, short answers, employers, then the matching stages. */
  function Examine(cfg: Config, env: Env, row: Tables.Row, fileText: string, answers: string): Outcome {
    if !IsEnglishText(CombinedText(fileText, answers), env.detectsEnglish) then NotEnglish
    else if !cfg.excludeAnswers && QaBlob.BlobShortCount(answers, MinWords) >= 2 then ShortAnswers
    else if Employers.EmployerRejected(Strip(Tables.Cell(row, "experience")), fileText, env.unallowed) then Employer
    else Match(cfg, env, row, fileText, answers)
  }

  /** The symbols found in the text searched for them, with where. */
  function FoundSymbols(cfg: Config, fileText: string, answers: string): map<string, seq<string>> {
    Symbols.GetFoundSymbols(SymbolText(cfg, fileText, answers), "", cfg.checkDollar, cfg.checkPercent)
  }

  /** Every symbol the user asked for was found. */
  predicate SymbolsPresent(cfg: Config, symbols: map<string, seq<string>>) {
    (cfg.checkDollar ==> "$" in symbols) && (cfg.checkPercent ==> "%" in symbols)
  }

  /** The result row of an applicant who passed. */
  function Passing(cfg: Config, env: Env, row: Tables.Row, fileText: string, answers: string): Applicant {
    Applicant(row, JoinedPlaces(FoundSymbols(cfg, fileText, answers)),
              Keywords.FoundPlaces(env.nlp, fileText, answers, KeywordList(cfg.requiredText)),
              Keywords.FoundPlaces(env.nlp, fileText, answers, KeywordList(cfg.optionalText)))
  }

  /** The matching stages: symbols, required keywords, related keywords. */
  function Match(cfg: Config, env: Env, row: Tables.Row, fileText: string, answers: string): (o: Outcome)
    ensures Rank(o) >= 5
  {
    MatchVerdict(SymbolsPresent(cfg, FoundSymbols(cfg, fileText, answers)),
                 Keywords.AllFound(env.nlp, fileText, answers, KeywordList(cfg.requiredText)),
                 Keywords.SemanticMatch(env.nlp, fileText, answers, KeywordList(cfg.relatedText)),
                 Passing(cfg, env, row, fileText, answers))
  }

  /** The first matching stage that fails, or the pass. */
  function MatchVerdict(symbolsPresent: bool, requiredFound: bool, related: bool, result: Applicant): (o: Outcome)
    ensures Rank(o) >= 5
    ensures o.Pass? <==> symbolsPresent && requiredFound && related
  {
    if !symbolsPresent then MissingSymbol
    else if !requiredFound then MissingRequired
    else if !related then NotRelated
    else Pass(result)
  }

  /** The resume file of a row: its stripped "download" cell. */
  function FileName(row: Tables.Row): string {
    Strip(Tables.Cell(row, "download"))
  }

  /** The extension is ".pdf" or ".docx", in any case. */
  predicate Supported(filename: string) {
    Lower(Extension(filename)) == ".pdf" || Lower(Extension(filename)) == ".docx"
  }

  /** What the screening makes of one row. */
  function Screen(cfg: Config, env: Env, row: Tables.Row): Outcome {
    var filename := FileName(row);
    if !env.isFile(filename) then NoFile
    else if !Supported(filename) then Unsupported
    else Examine(cfg, env, row, FileText(env, filename), AnswersText(cfg, row))
  }

  /** The outcome of each row under `screen`, in row order. */
  function ScreenEach(screen: Tables.Row -> Outcome, rows: seq<Tables.Row>): (os: seq<Outcome>)
    ensures |os| == |rows|
    ensures forall i :: 0 <= i < |rows| ==> os[i] == screen(rows[i])
  {
    seq(|rows|, i requires 0 <= i < |rows| => screen(rows[i]))
  }

  /** Screening one row with the run's settings and environment. */
  function Screener(cfg: Config, env: Env): Tables.Row -> Outcome {
    row => Screen(cfg, env, row)
  }

  /** The outcome of every row. */
  function Outcomes(cfg: Config, env: Env, rows: seq<Tables.Row>): (os: seq<Outcome>)
    ensures |os| == |rows|
  {
    ScreenEach(Screener(cfg, env), rows)
  }

  /** The number of outcomes that got past `stages` stages. */
  function CountReaching(os: seq<Outcome>, stages: nat): nat {
    if os == [] then 0
    else CountReaching(os[..|os| - 1], stages) + (if Rank(os[|os| - 1]) >= stages then 1 else 0)
  }

  /** The six counters of the pipeline. */
  datatype Counters = Counters(
    pdfExists: nat,
    english: nat,
    shortAnswersOkay: nat,
    noUnallowed: nat,
    keywords: nat,
    finalPass: nat)

  /** The counters for a run whose rows had outcomes `os`. */
  function Tally(os: seq<Outcome>): Counters {
    Counters(CountReaching(os, 1), CountReaching(os, 3), CountReaching(os, 4),
             CountReaching(os, 5), CountReaching(os, 8), CountReaching(os, 8))
  }

  /** The applicants who passed, in row order. */
  function Passed(os: seq<Outcome>): seq<Applicant> {
    if os == [] then []
    else Passed(os[..|os| - 1]) + (match os[|os| - 1] case Pass(a) => [a] case _ => [])
  }

  /** 1 when the outcome got past `stages` stages, else 0. */
  function Step(o: Outcome, stages: nat): nat {
    if Rank(o) >= stages then 1 else 0
  }

  /** The counters after one more row: each counter whose stage it got past goes up by one. */
  function Bump(c: Counters, o: Outcome): Counters {
    Counters(c.pdfExists + Step(o, 1), c.english + Step(o, 3), c.shortAnswersOkay + Step(o, 4),
             c.noUnallowed + Step(o, 5), c.keywords + Step(o, 8), c.finalPass + Step(o, 8))
  }

  /** Counting one more row is a bump of the counters, and a pass adds its applicant to the results. */
  lemma TallySnoc(os: seq<Outcome>, o: Outcome)
    ensures Tally(os + [o]) == Bump(Tally(os), o)
    ensures Passed(os + [o]) == Passed(os) + (if o.Pass? then [o.result] else [])
  {
    assert (os + [o])[..|os|] == os;
  }

  /** The rows that are screened: all of them, or none when no "download" column survived normalisation. */
  function ScreenedRows(f: Tables.Frame): seq<Tables.Row> {
    if "download" in f.columns then f.rows else []
  }

  /** Fewer rows get past a later stage than an earlier one. */
  lemma {:induction false} CountReachingMonotone(os: seq<Outcome>, early: nat, late: nat)
    requires early <= late
    ensures CountReaching(os, late) <= CountReaching(os, early)
  {
    if os != [] {
      CountReachingMonotone(os[..|os| - 1], early, late);
    }
  }

  /** The passed applicants are exactly the rows that got past all eight stages. */
  lemma {:induction false} PassedCount(os: seq<Outcome>)
    ensures |Passed(os)| == CountReaching(os, 8)
  {
    if os != [] {
      PassedCount(os[..|os| - 1]);
    }
  }

  /** The counters form a funnel, and the last two equal the number of results. */
  lemma Funnel(os: seq<Outcome>)
    ensures var c := Tally(os);
      c.pdfExists >= c.english >= c.shortAnswersOkay >= c.noUnallowed >= c.keywords
      && c.keywords == c.finalPass == |Passed(os)|
  {
    CountReachingMonotone(os, 1, 3);
    CountReachingMonotone(os, 3, 4);
    CountReachingMonotone(os, 4, 5);
    CountReachingMonotone(os, 5, 8);
    PassedCount(os);
  }

  /**
   * The short-answer stage never stops a row: the filtered answers it looks
   * at hold no "----------" separator, so they count at most one short answer.
   */
  lemma ShortAnswerStageNeverRejects(cfg: Config, env: Env, row: Tables.Row)
    ensures Screen(cfg, env, row) != ShortAnswers
  {
    var filename := FileName(row);
    if env.isFile(filename) && Supported(filename) {
      ExamineNeverShort(cfg, env, row, FileText(env, filename), AnswersText(cfg, row));
    }
  }

  lemma ExamineNeverShort(cfg: Config, env: Env, row: Tables.Row, fileText: string, answers: string)
    requires answers == AnswersText(cfg, row)
    ensures Examine(cfg, env, row, fileText, answers) != ShortAnswers
  {
    if !cfg.excludeAnswers {
      QaBlob.ShortAnswerGateNeverRejects(Tables.Cell(row, "answers"), MinWords);
      assert QaBlob.BlobShortCount(answers, MinWords) < 2;
    }
  }

  /** So as many rows pass the short-answer stage as pass the English stage, with or without answers. */
  lemma ShortAnswersOkayIsEnglish(cfg: Config, env: Env, rows: seq<Tables.Row>)
    ensures Tally(Outcomes(cfg, env, rows)).shortAnswersOkay == Tally(Outcomes(cfg, env, rows)).english
  {
    var os := Outcomes(cfg, env, rows);
    forall i | 0 <= i < |os|
      ensures os[i] != ShortAnswers
    {
      assert os[i] == Screener(cfg, env)(rows[i]);
      ShortAnswerStageNeverRejects(cfg, env, rows[i]);
    }
    NeverShortCount(os);
  }

  /** Without a short-answer outcome, whoever gets past the English stage gets past the next. */
  lemma {:induction false} NeverShortCount(os: seq<Outcome>)
    requires forall i :: 0 <= i < |os| ==> os[i] != ShortAnswers
    ensures CountReaching(os, 4) == CountReaching(os, 3)
  {
    if os != [] {
      NeverShortCount(os[..|os| - 1]);
    }
  }

  /** What passing the matching stages means. */
  lemma MatchPassMeans(cfg: Config, env: Env, row: Tables.Row, fileText: string, answers: string)
    requires Match(cfg, env, row, fileText, answers).Pass?
    ensures var result := Match(cfg, env, row, fileText, answers).result;
      (cfg.checkDollar ==> "$" in result.foundSymbols)
      && (cfg.checkPercent ==> "%" in result.foundSymbols)
      && Keywords.AllFound(env.nlp, fileText, answers, KeywordList(cfg.requiredText))
      && Keywords.SemanticMatch(env.nlp, fileText, answers, KeywordList(cfg.relatedText))
      && result.row == row
  {
  }

  /** What passing every stage means for a row. */
  lemma PassMeans(cfg: Config, env: Env, row: Tables.Row)
    requires Screen(cfg, env, row).Pass?
    ensures var filename := FileName(row);
      var fileText := FileText(env, filename);
      var answers := AnswersText(cfg, row);
      env.isFile(filename)
      && Supported(filename)
      && IsEnglishText(CombinedText(fileText, answers), env.detectsEnglish)
      && !Employers.EmployerRejected(Strip(Tables.Cell(row, "experience")), fileText, env.unallowed)
      && Screen(cfg, env, row) == Match(cfg, env, row, fileText, answers)
  {
  }

  /** With no non-blank related keyword, no row passes. */
  lemma NoRelatedKeywordsRowFails(cfg: Config, env: Env, row: Tables.Row)
    requires KeywordList(cfg.relatedText) == []
    ensures !Screen(cfg, env, row).Pass?
  {
    if Screen(cfg, env, row).Pass? {
      var filename := FileName(row);
      PassMeans(cfg, env, row);
      Keywords.NoRelatedKeywordsNoMatch(env.nlp, FileText(env, filename), AnswersText(cfg, row), []);
      assert false;
    }
  }

  /** With no non-blank related keyword, nobody passes. */
  lemma NoRelatedKeywordsNobodyPasses(cfg: Config, env: Env, rows: seq<Tables.Row>)
    requires KeywordList(cfg.relatedText) == []
    ensures Tally(Outcomes(cfg, env, rows)).finalPass == 0
    ensures Passed(Outcomes(cfg, env, rows)) == []
  {
    var os := Outcomes(cfg, env, rows);
    forall i | 0 <= i < |os|
      ensures !os[i].Pass?
    {
      assert os[i] == Screener(cfg, env)(rows[i]);
      NoRelatedKeywordsRowFails(cfg, env, rows[i]);
    }
    NonePassCount(os);
    PassedCount(os);
  }

  /** Without a passing outcome, nobody gets past the last stage. */
  lemma {:induction false} NonePassCount(os: seq<Outcome>)
    requires forall i :: 0 <= i < |os| ==> !os[i].Pass?
    ensures CountReaching(os, 8) == 0
  {
    if os != [] {
      NonePassCount(os[..|os| - 1]);
    }
  }

  /** The body of the row loop: each `continue` of the source is a stage that stops the row. */
  method ScreenRow(cfg: Config, env: Env, row: Tables.Row, required: seq<string>, optional: seq<string>, related: seq<string>)
    returns (o: Outcome)
    requires required == KeywordList(cfg.requiredText)
    requires optional == KeywordList(cfg.optionalText)
    requires related == KeywordList(cfg.relatedText)
    ensures o == Screen(cfg, env, row)
  {
    var filename := Strip(Tables.Cell(row, "download"));
    if !env.isFile(filename) {
      return NoFile;
    }
    var ext := Lower(Extension(filename));
    var fileText;
    if ext == ".pdf" {
      fileText := env.pdfText(filename);
    } else if ext == ".docx" {
      fileText := env.docxText(filename);
    } else {
      return Unsupported;
    }
    var answers := "";
    if !cfg.excludeAnswers {
      answers := QaBlob.FilterIgnoredQuestions(Tables.Cell(row, "answers"));
    }
    assert fileText == FileText(env, filename) && answers == AnswersText(cfg, row);
    o := ExamineRow(cfg, env, row, fileText, answers, required, optional, related);
  }

  /** The English, short-answer and employer stages, then the matching stages. */
  method ExamineRow(cfg: Config, env: Env, row: Tables.Row, fileText: string, answers: string,
                    required: seq<string>, optional: seq<string>, related: seq<string>)
    returns (o: Outcome)
    requires required == KeywordList(cfg.requiredText)
    requires optional == KeywordList(cfg.optionalText)
    requires related == KeywordList(cfg.relatedText)
    ensures o == Examine(cfg, env, row, fileText, answers)
  {
    var combined := if answers != [] then fileText + " " + answers else fileText;
    if !IsEnglishText(combined, env.detectsEnglish) {
      return NotEnglish;
    }
    if !cfg.excludeAnswers {
      var twoShort := QaBlob.HasTwoOrMoreShortAnswers(answers, MinWords);
      if twoShort {
        return ShortAnswers;
      }
    }
    var experience := Strip(Tables.Cell(row, "experience"));
    var companies := Employers.ParseExperiencesLines(experience);
    if companies != [] {
      if exists k :: 0 <= k < |companies| && companies[k] in env.unallowed {
        return Employer;
      }
    } else {
      var count, matched := Employers.CountUnallowedMatches(fileText, env.unallowed);
      if count >= 2 {
        return Employer;
      }
    }
    assert !Employers.EmployerRejected(experience, fileText, env.unallowed);
    o := MatchRow(cfg, env, row, fileText, answers, required, optional, related);
  }

  /** The symbol, required-keyword and related-keyword stages. */
  method MatchRow(cfg: Config, env: Env, row: Tables.Row, fileText: string, answers: string,
                  required: seq<string>, optional: seq<string>, related: seq<string>)
    returns (o: Outcome)
    requires required == KeywordList(cfg.requiredText)
    requires optional == KeywordList(cfg.optionalText)
    requires related == KeywordList(cfg.relatedText)
    ensures o == Match(cfg, env, row, fileText, answers)
  {
    var symbolText := if cfg.excludeAnswers then fileText else fileText + " " + answers;
    var symbols := Symbols.GetFoundSymbols(symbolText, "", cfg.checkDollar, cfg.checkPercent);
    assert symbols == FoundSymbols(cfg, fileText, answers);
    if cfg.checkDollar && "$" !in symbols {
      return MissingSymbol;
    }
    if cfg.checkPercent && "%" !in symbols {
      return MissingSymbol;
    }
    var foundRequired, allFound := Keywords.GetFoundRequiredWithLocations(env.nlp, fileText, answers, required);
    if !allFound {
      return MissingRequired;
    }
    var foundOptional := Keywords.GetFoundOptionalWithLocations(env.nlp, fileText, answers, optional);
    var isRelated := Keywords.SemanticKeywordMatch(env.nlp, fileText, answers, related);
    if !isRelated {
      return NotRelated;
    }
    return Pass(Applicant(row, JoinedPlaces(symbols), foundRequired, foundOptional));
  }

  /** Screening one more row appends its outcome. */
  lemma ScreenEachSnoc(screen: Tables.Row -> Outcome, rows: seq<Tables.Row>, idx: int)
    requires 0 <= idx < |rows|
    ensures ScreenEach(screen, rows[..idx + 1]) == ScreenEach(screen, rows[..idx]) + [screen(rows[idx])]
  {
    var a := ScreenEach(screen, rows[..idx + 1]);
    var b := ScreenEach(screen, rows[..idx]) + [screen(rows[idx])];
    assert forall i :: 0 <= i < idx + 1 ==> a[i] == b[i];
  }

  /**
   * The row loop of `process_applicants`: it stops at once when there is no
   * "download" column, and otherwise screens every row, counting the rows
   * past each stage and collecting those that pass.
   */
  method ScreenRows(cfg: Config, env: Env, columns: seq<string>, rows: seq<Tables.Row>)
    returns (results: seq<Applicant>, counts: Counters)
    ensures var os := Outcomes(cfg, env, if "download" in columns then rows else []);
      counts == Tally(os) && results == Passed(os)
  {
    var required := KeywordList(cfg.requiredText);
    var optional := KeywordList(cfg.optionalText);
    var related := KeywordList(cfg.relatedText);
    counts := Counters(0, 0, 0, 0, 0, 0);
    results := [];
    ghost var os: seq<Outcome> := [];
    var idx := 0;
    while idx < |rows|
      invariant 0 <= idx <= |rows|
      invariant "download" !in columns ==> idx == 0
      invariant os == Outcomes(cfg, env, rows[..idx])
      invariant counts == Tally(os) && results == Passed(os)
    {
      if "download" !in columns {
        break;
      }
      ScreenEachSnoc(Screener(cfg, env), rows, idx);
      var o := ScreenRow(cfg, env, rows[idx], required, optional, related);
      assert o == Screener(cfg, env)(rows[idx]);
      TallySnoc(os, o);
      counts := Bump(counts, o);
      if o.Pass? {
        results := results + [o.result];
      }
      os := os + [o];
      idx := idx + 1;
    }
    if "download" in columns {
      assert rows[..idx] == rows;
    } else {
      assert rows[..idx] == [];
    }
  }

  /**
   * `process_applicants`: normalise the table, then screen its rows. No row
   * is screened, and every counter stays 0, when normalisation leaves no
   * "download" column.
   */
  method ProcessApplicants(cfg: Config, env: Env, input: Tables.Frame)
    returns (results: seq<Applicant>, counts: Counters)
    ensures var os := Outcomes(cfg, env, ScreenedRows(Tables.Normalized(input)));
      counts == Tally(os) && results == Passed(os)
    ensures "download" !in Tables.Normalized(input).columns ==> counts == Counters(0, 0, 0, 0, 0, 0) && results == []
  {
    var table := new Tables.Table(input.columns, input.rows);
    table.Normalize();
    results, counts := ScreenRows(cfg, env, table.columns, table.rows);
  }
}

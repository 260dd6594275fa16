# Applicant screener: a Dafny model of `core_logic.py`

The screener reads a table of job applicants, each row naming a resume file
(PDF or DOCX) and carrying the applicant's answers to a questionnaire. It
first normalises the table's columns. Then every row goes through a fixed
sequence of screening stages, and the first stage that fails drops the row:

1. the resume file exists;
2. its type is supported;
3. the resume and the answers read as English;
4. the answers do not have two or more short answers;
5. the applicant has not worked for a disallowed company;
6. the requested `$` and `%` symbols appear;
7. every required keyword is found;
8. some related keyword is found.

Six counters record how many rows get past stages 1, 3, 4, 5 and 8; two of
them count stage 8. The rows that pass
everything are returned, with what was found. A last helper chooses which of
the result columns go to a spreadsheet, and in what order.

This project models that logic and proves properties of it. Each source file
is modelled in the form it is written in:

- **text.dfy** (`Text`): the ASCII string operations the source relies on.
  These are `str.lower`, `strip`, `split(sep)`, `splitlines`, `split()`,
  `"\n".join`, `re.findall(r"\w+")` and substring search.
- **qa_blob.dfy** (`QaBlob`): `is_ignored_question`, `filter_ignored_questions`
  and `has_two_or_more_short_answers`. The two loops are methods proved
  against recursive functions over the parsed blocks of the blob.
- **employers.dfy** (`Employers`): the disallowed-employer check.
  - `parse_experiences_lines` is a loop method proved against a function.
  - `tokenize_to_words`, `phrase_in_tokens` and `count_unallowed_matches` are
    modelled, and so is the decision at lines 310-325.
- **symbols.dfy** (`Symbols`): `get_found_symbols`.
  - The money and percent regular expressions are written out as languages.
  - `re.search` becomes "some slice of the text is in the language".
- **keywords.dfy** (`Keywords`): `get_found_required_with_locations`,
  `get_found_optional_with_locations` and `semantic_keyword_match`. Each is a
  loop method over a language-model oracle.
- **tables.dfy** (`Tables`): `normalize_dataframe`.
  - A `Table` class whose `columns` and `rows` are updated in place, one
    method per step.
  - `Normalize` is proved equal to the value-level function `Normalized`, and
    the properties are proved about that function.
- **export.dfy** (`Export`): the column choice of
  `append_first_8_columns_to_google_sheet`, including the nested
  `finalize_columns`.
- **pipeline.dfy** (`Pipeline`): `process_applicants`.
  - The row loop with its six counters is a method.
  - Its result equals a tally over per-row outcomes, and the funnel properties
    are proved about that tally.

Two places where the code is followed rather than its stated intent:

- **The short-answer gate never rejects.** The pipeline calls
  `has_two_or_more_short_answers` on the output of `filter_ignored_questions`
  (core_logic.py:292, 302). That output never contains the `----------`
  separator, so it is one block, which holds at most one short answer. The
  gate therefore never stops a row, and `short_answers_okay_count` always
  equals `english_count`. `QaBlob.ShortAnswerGateNeverRejects` and
  `Pipeline.ShortAnswersOkayIsEnglish` prove this.
- **Semicolon segments are kept whole.** An experience text such as
  `Acme Corp : Engineer; Globex Inc : Analyst` yields the names
  `Acme Corp : Engineer` and `Globex Inc : Analyst`, job titles included. The
  semicolon branch (core_logic.py:171-177) never splits on `:`. The function's
  own docstring (core_logic.py:162-165) promises up to two company names for
  `IBM; Apple`, for `The Instant Group : Manager`, "or a mixture", so a mixed
  input should give `Acme Corp`. As written, a list entry `Acme Corp` does not
  reject this applicant. `Employers.SemicolonPairKeptWhole` proves this
  behaviour.

## Model

| member | source | states |
|---|---|---|
| QaBlob.IsIgnoredQuestion | core_logic.py:502-512 | definition: the lower-cased question contains "check all that apply" or "how many", or starts with "do you ", "are you ", "have you " or "did you " |
| QaBlob.IgnoredQuestionIgnoresCase | core_logic.py:502-512 | a question is ignorable exactly when its lower-cased form is: the tests run on the lower-cased text |
| QaBlob.ParsePiece | core_logic.py:207-217 | a parsed block's heading and content are both stripped |
| QaBlob.ParsePieces | core_logic.py:203-217 | every block of the split blob is parsed, one piece per block, in order |
| QaBlob.KeptUnits | core_logic.py:207-234 | definition of the kept units, block by block with the pending question; at most one unit per block |
| QaBlob.Render | core_logic.py:225-226 | each kept unit becomes the two lines "Question: q" and "Answer: a", in order |
| QaBlob.FilterIgnoredQuestions | core_logic.py:198-237 | the loop returns the "\n"-joined lines of exactly the units the recursive definition keeps, carrying the pending question across blocks |
| QaBlob.KeptQuestionsNotIgnored | core_logic.py:224-232 | no kept unit has an ignorable question |
| QaBlob.InlineQuestionKept | core_logic.py:228-234 | a block whose heading is neither marker, and is not ignorable, keeps its heading and content as one unit, in place |
| QaBlob.MarkedPairKept | core_logic.py:220-227 | a "Question N" block with a non-empty, non-ignorable question, followed by an "Answer N" block, keeps that question with that answer and clears the pending question |
| QaBlob.OrphanAnswerDropped | core_logic.py:222-227 | an "Answer N" block with no question pending keeps nothing |
| QaBlob.ShortCount | core_logic.py:520-554 | definition of the short-answer count: a question marker sets the pending question; an answer marker after an ignorable question is skipped and that question stays pending, otherwise a short answer counts and the pending question clears; an inline question counts its own short answer unless ignorable |
| QaBlob.HasTwoOrMoreShortAnswers | core_logic.py:515-556 | the result is true exactly when the blob holds at least two short, non-ignorable answers; the early return does not change it |
| QaBlob.IgnoredQuestionStaysPending | core_logic.py:534-538 | an "Answer N" block after an ignorable question counts nothing and leaves that question pending |
| QaBlob.ShortCountAtMostPieces | core_logic.py:520-554 | each block adds at most one short answer |
| QaBlob.NoSeparatorNeverTwoShort | core_logic.py:516 | a text without "----------" holds at most one short answer |
| QaBlob.FilteredAnswersSeparatorFree | core_logic.py:225-237 | the filtered blob never contains "----------" |
| QaBlob.ShortAnswerGateNeverRejects | core_logic.py:292-302 | on a filtered blob the short-answer count is below two, whatever the input |
| Employers.Take2 | core_logic.py:173-176 | the first at most two entries, a prefix of the list, and all of a list of at most two |
| Employers.ColonName | core_logic.py:184-193 | a line contributes at most one name |
| Employers.ColonNameShape | core_logic.py:185-191 | a name found before a colon is longer than two characters, holds no ':' and is stripped |
| Employers.ColonNamesShape | core_logic.py:183-193 | every name from the colon layout is longer than two characters, colon-free and stripped |
| Employers.ParseExperiences | core_logic.py:161-195 | definition: with a ';' the first two non-blank stripped segments, otherwise the first two colon names of the lines; at most two names |
| Employers.ParseExperiencesLines | core_logic.py:161-195 | the loop returns exactly the names the layout-based definition gives |
| Employers.FirstTwo | core_logic.py:172-177 | the semicolon loop keeps the first two segments and stops |
| Employers.FirstTwoColonNames | core_logic.py:183-195 | the line loop, taking from each line the stripped text before its first ':' when longer than two characters, stops at the second name and returns the first two the lines give |
| Employers.ParsedNamesShape | core_logic.py:161-195 | at most two names, each non-empty and stripped |
| Employers.ParsedNamesByLayout | core_logic.py:171-195 | when the text has a ';' no name holds a ';'; otherwise every name is longer than two characters and holds no ':' |
| Employers.SemicolonPairKeptWhole | core_logic.py:171-177 | for two stripped, non-empty, semicolon-free parts, "a;b" yields exactly [a, b], colons and titles included |
| Employers.Tokenize | core_logic.py:465-466 | tokens are non-empty runs of word characters |
| Employers.TokensCoverWordChars | core_logic.py:465-466 | the tokens concatenated are exactly the text's word characters, in order |
| Employers.TokensSplitAtNonWord | core_logic.py:465-466 | a non-word character separates tokens: the text on each side of it is tokenized on its own |
| Employers.WordIsOneToken | core_logic.py:465-466 | a non-empty text of word characters is one token, so tokens are maximal runs |
| Employers.PhraseInTokens | core_logic.py:454-462 | true exactly when the phrase is non-empty and occurs as a contiguous slice of the tokens |
| Employers.PhraseOccursInContext | core_logic.py:454-462 | a phrase found in some tokens is still found with tokens added on either side |
| Employers.PhraseOccursInItself | core_logic.py:454-462 | a non-empty phrase occurs in its own tokens |
| Employers.MatchedPhrases | core_logic.py:443-450 | definition: the distinct listed phrases whose lower-cased tokens occur in the lower-cased text's tokens |
| Employers.CountUnallowedMatches | core_logic.py:443-451 | the matched phrases are exactly the distinct listed phrases whose lower-cased tokens occur in the text's tokens, and the count is their number |
| Employers.MatchedPhrasesSnoc | core_logic.py:446-449 | one more listed phrase joins the matches exactly when its tokens occur |
| Employers.MatchCountBounded | core_logic.py:450-451 | the count is at most the number of distinct listed phrases and at most the list's length |
| Employers.EmployerRejected | core_logic.py:310-325 | definition: with parsed names, rejected iff one is a list entry verbatim; with none, rejected iff at least two distinct entries match the resume text |
| Employers.ListedNameRejects | core_logic.py:314-317 | a parsed name that is on the list rejects the applicant |
| Employers.ParsedNamesIgnoreResume | core_logic.py:314-323 | when names were parsed, the resume text plays no part in the decision |
| Employers.EmptyListRejectsNobody | core_logic.py:310-325 | with an empty company list nobody is rejected |
| Symbols.MoneyFoundIff | core_logic.py:398-408 | the money pattern matches somewhere exactly when a '$' is immediately followed by a digit |
| Symbols.PercentFoundIff | core_logic.py:417-422 | the percent pattern matches somewhere exactly when a digit is immediately followed by '%' |
| Symbols.PercentEndsDigitPercent | core_logic.py:417 | every match of the percent pattern ends with a digit and '%' |
| Symbols.Places | core_logic.py:405-411 | the list of places is empty exactly when the pattern matched in neither text |
| Symbols.GetFoundSymbols | core_logic.py:379-427 | "$" is a key exactly when it was asked for and its pattern matched in a text; likewise "%"; there are no other keys |
| Symbols.FoundSymbolsPlaces | core_logic.py:405-425 | each value is a non-empty, in-order subsequence of ["pdf", "answers"], naming exactly the texts that matched |
| Symbols.NothingFoundInEmpty | core_logic.py:406-422 | neither pattern matches the empty text |
| Symbols.PipelineSymbolsFromPdfOnly | core_logic.py:327-332 | with "" as the answers text, every value is ["pdf"], and the keys are decided by the adjacent-character tests |
| Keywords.AnyTokenHit | core_logic.py:580 | true exactly when some token's similarity reaches the 0.7 threshold |
| Keywords.LookUp | core_logic.py:575-583 | the places of one keyword: "pdf" and then "answers", for the documents with a close token to the stripped, lower-cased keyword |
| Keywords.FoundPlaces | core_logic.py:574-587 | definition of the found map: each non-blank listed keyword found somewhere, with its places |
| Keywords.FoundPlacesSnoc | core_logic.py:574-587 | one more keyword is added, with its places, exactly when it is non-blank and found |
| Keywords.AllFoundSnoc | core_logic.py:576-588 | one more keyword keeps "all found" exactly when it is blank or found |
| Keywords.GetFoundRequiredWithLocations | core_logic.py:569-589 | the map holds exactly the non-blank keywords found, with their places, and the flag holds exactly when every non-blank keyword was found |
| Keywords.GetFoundOptionalWithLocations | core_logic.py:603-619 | the map holds exactly the non-blank keywords found, with their places |
| Keywords.FoundPlacesShape | core_logic.py:574-589 | keys are non-blank listed keywords with place lists in order; "all found" holds exactly when every non-blank keyword is a key |
| Keywords.NoKeywordsAllFound | core_logic.py:569-589 | with no keywords the map is empty and the flag is true |
| Keywords.SemanticKeywordMatch | core_logic.py:622-632 | true exactly when some token of the combined text is close to some non-blank stripped keyword |
| Keywords.SemanticMatch | core_logic.py:622-632 | definition: some token of the resume text, a space and the answers is close to some non-blank stripped keyword |
| Keywords.NoRelatedKeywordsNoMatch | core_logic.py:625-632 | with only blank keywords nothing matches, whatever the texts |
| Tables.RelabelRow | core_logic.py:63-101 | every label of the new row is the new label of some column |
| Tables.RelabelRowCell | core_logic.py:63-101 | a cell moves with its column when no other column takes the same new label |
| Tables.MapLabels | core_logic.py:65-67 | each label is replaced by its new label, position by position |
| Tables.Relabel | core_logic.py:63-101 | the table keeps its row count, and its labels are mapped one by one |
| Tables.WithColumn | core_logic.py:69-71 | nothing changes when the label is already there; otherwise it is appended to the labels and every row gains a "" cell under it, its other cells unchanged |
| Tables.RenameLabel | core_logic.py:73-101 | definition of a label's rename: the rename table ignoring case, then "resume" in any case giving "download", then "answers" in any case giving "answers" |
| Tables.QuestionColumns | core_logic.py:104-112 | every collected label is a question column of the table |
| Tables.AnswerColumns | core_logic.py:104-114 | every collected label is an answer column of the table |
| Tables.ColumnsClassified | core_logic.py:104-114 | every question column and every answer column of the table is collected |
| Tables.ColumnNumber | core_logic.py:116-118 | definition of `extract_number`: the first run of digits read as a number, 999 when there is none |
| Tables.InsertByKeyPermutes | core_logic.py:119-120 | insertion adds exactly the new label |
| Tables.SortByKeyPermutes | core_logic.py:119-120 | sorting permutes the labels |
| Tables.InsertKeepsSorted | core_logic.py:119-120 | insertion into a sorted list keeps it sorted by key |
| Tables.SortByKeySorted | core_logic.py:119-120 | the sorted list is ordered by key |
| Tables.InsertStable | core_logic.py:119-120 | insertion keeps the order of the labels that share a key |
| Tables.SortByKeyStable | core_logic.py:119-120 | sorting keeps the order of the labels that share a key |
| Tables.SortByNumber | core_logic.py:116-120 | the sort by the first number in the label permutes the labels |
| Tables.SortByNumberSortedStable | core_logic.py:116-120 | the sort by first number (999 without one) is a permutation, ordered, and stable |
| Tables.SortedMembers | core_logic.py:119-120 | sorting neither adds nor loses a label |
| Tables.LinesOfShape | core_logic.py:131-140 | positions with a pair give two lines each, and every line starts with the given lead |
| Tables.PairLinesShape | core_logic.py:132-140 | a position gives two lines when its question or answer text is non-empty and none otherwise, each line starting with "---------- " |
| Tables.LinesUpToShape | core_logic.py:131-140 | a row's lines are two per filled position, each starting with "---------- " |
| Tables.MergedAnswers | core_logic.py:142-149 | the new text is the existing one, a newline and the merged lines, or just whichever of the two is non-empty |
| Tables.KeptColumns | core_logic.py:151-155 | the kept labels are labels of the table, none of them dropped |
| Tables.KeptColumnsKeep | core_logic.py:151-155 | every label not dropped is kept |
| Tables.MergedRows | core_logic.py:128-149 | the merge keeps the number of rows |
| Tables.DroppedRows | core_logic.py:151-155 | the drop keeps the number of rows |
| Tables.DropCellsCell | core_logic.py:151-155 | a cell of a column not dropped is unchanged |
| Tables.DroppedAreQa | core_logic.py:151-153 | only question and answer columns are dropped |
| Tables.MergeAndDropColumns | core_logic.py:127-155 | the columns left are exactly the columns that are neither question nor answer columns; the row count is kept |
| Tables.MergeAndDropCell | core_logic.py:127-155 | a kept cell holds what the merge left in it |
| Tables.ResumeColumnBecomesDownload | core_logic.py:91-94 | any label with "resume" in it, in any case, becomes "download" |
| Tables.FixedNamesHaveNoResume | core_logic.py:73-94 | no target of the rename table, and not "download", contains "resume" |
| Tables.RenameKeepsId | core_logic.py:69-101 | the rename steps leave "id" as it is |
| Tables.PreparedHasIdAndAnswers | core_logic.py:69-125 | before the merge the table has an "id" and an "answers" column, and its row count |
| Tables.IdAndAnswersNotQa | core_logic.py:104-114 | "id" and "answers" are never question or answer columns |
| Tables.Normalized | core_logic.py:51-158 | definition of the normalised table: relabel, add "id", rename, add "answers", merge the sorted question/answer columns, drop them |
| Tables.NormalizedHasIdAndAnswers | core_logic.py:51-158 | the result keeps the row count and has both an "id" and an "answers" column |
| Tables.NoQaColumnsRemain | core_logic.py:104-155 | no question or answer column remains |
| Tables.AddedAnswersBlank | core_logic.py:123-125 | when the table had no "answers" column, each row's "answers" cell starts out as "" |
| Tables.NormalizedAnswers | core_logic.py:127-149 | each row's "answers" is its earlier text merged with that row's question/answer lines |
| Tables.NormalizedOtherCells | core_logic.py:127-155 | every other kept cell is as it was before the merge |
| Tables.BlankQaLeavesRow | core_logic.py:144-149 | a row whose question and answer cells are all blank is left as it is |
| Tables.Table.constructor | core_logic.py:250-251 | the table holds the given columns and rows |
| Tables.Table.RelabelColumns | core_logic.py:63-101 | the table becomes its relabelling, columns and rows |
| Tables.Table.EnsureColumn | core_logic.py:69-71 | the table gains the column, blank in every row, when missing |
| Tables.Table.ClassifyQaColumns | core_logic.py:104-114 | returns the question and answer columns of the table, in order |
| Tables.Table.MergeIntoAnswers | core_logic.py:127-149 | the row loop leaves the columns and merges every row |
| Tables.Table.DropColumns | core_logic.py:151-155 | the question and answer columns and their cells are gone |
| Tables.Table.Normalize | core_logic.py:51-158 | the table becomes `Normalized` of what it was |
| Tables.RowLines | core_logic.py:131-140 | the inner loop, adding the two labelled lines of each position whose question or answer text is non-empty, builds the row's lines over every position up to the longer column list |
| Export.DropUnwanted | core_logic.py:687-689 | every unwanted column goes, and every other column stays |
| Export.RemoveFirst | core_logic.py:698-701 | removing a present label shortens the list by one, and keeps every other label |
| Export.Proposed | core_logic.py:694-708 | the reordering keeps the number and the set of labels |
| Export.ProposedEnds | core_logic.py:703-708 | the reordered list starts with "id" and ends with "answers" when present |
| Export.FinalizeColumns | core_logic.py:711-731 | `finalize_columns` returns exactly min(n, 8) labels, and the whole list when n is at most 8 |
| Export.SheetColumns | core_logic.py:686-733 | definition: drop the unwanted columns, reorder with "id" first and "answers" last, then finalize |
| Export.SheetColumnsCount | core_logic.py:686-733 | the sheet gets exactly min(n, 8) of the n wanted columns, all of them when n is at most 8 |
| Export.FinalizeSubsequence | core_logic.py:711-731 | `finalize_columns` keeps a subsequence of its input when "id" and "answers" sit at its ends |
| Export.SheetColumnsSubsequence | core_logic.py:686-733 | the sheet columns are a subsequence of the reordered list |
| Export.SheetColumnsEnds | core_logic.py:694-733 | "id" comes first and "answers" last whenever they are wanted |
| Export.SheetColumnsWanted | core_logic.py:686-733 | no unwanted column reaches the sheet, and every column sent is one of the table's |
| Pipeline.ShortTextNotEnglish | core_logic.py:492-495 | a text under 50 characters after stripping is never English |
| Pipeline.IsEnglishText | core_logic.py:492-499 | definition: the stripped text has at least 50 characters and the detector calls it English |
| Pipeline.LastIndex | core_logic.py:279 | the last position of the character, or -1 when it is absent |
| Pipeline.Extension | core_logic.py:279 | the extension is empty or a final slice of the path that starts with '.' and holds no other '.' or '/' |
| Pipeline.KeywordList | core_logic.py:255-257 | every keyword in the list is non-empty and stripped |
| Pipeline.Examine | core_logic.py:294-325 | definition of the stages after reading the file: English, then short answers unless excluded, then employers, then the matching stages |
| Pipeline.Screen | core_logic.py:273-360 | definition of one row's outcome: file exists, supported extension, then the later stages on the file's text and the filtered answers |
| Pipeline.Match | core_logic.py:327-360 | a row that reaches the symbol stage gets past the employer stage |
| Pipeline.MatchVerdict | core_logic.py:329-351 | a row passes exactly when the symbols, the required keywords and a related keyword are all found |
| Pipeline.ScreenEach | core_logic.py:268-360 | one outcome per row, in order |
| Pipeline.Outcomes | core_logic.py:268-360 | one outcome per row |
| Pipeline.Tally | core_logic.py:259-351 | definition of the six counters: the rows past stages 1, 3, 4 and 5, and two counters of the rows past stage 8 |
| Pipeline.TallySnoc | core_logic.py:268-360 | one more row bumps the counters by its outcome and adds its result when it passed |
| Pipeline.CountReachingMonotone | core_logic.py:259-351 | fewer rows get past a later stage than an earlier one |
| Pipeline.PassedCount | core_logic.py:351-360 | the results are exactly the rows that passed |
| Pipeline.Funnel | core_logic.py:259-360 | pdf_exists >= english >= short_answers_okay >= no_unallowed >= keywords, and keywords = final_pass = the number of results |
| Pipeline.ShortAnswerStageNeverRejects | core_logic.py:288-307 | no row stops at the short-answer stage |
| Pipeline.ExamineNeverShort | core_logic.py:288-307 | with the filtered answers, the short-answer stage never stops a row |
| Pipeline.ShortAnswersOkayIsEnglish | core_logic.py:296-307 | short_answers_okay always equals english, with or without exclude_answers |
| Pipeline.NeverShortCount | core_logic.py:301-307 | when no row stops at the short-answer stage, the two counters agree |
| Pipeline.MatchPassMeans | core_logic.py:327-351 | a passing row had the asked-for symbols, all required keywords and a related keyword, and its result is its own row |
| Pipeline.PassMeans | core_logic.py:273-351 | a passing row's file exists, is a supported type, its text is English, and no disallowed employer was found |
| Pipeline.NoRelatedKeywordsRowFails | core_logic.py:344-349 | with no related keyword no row passes |
| Pipeline.NoRelatedKeywordsNobodyPasses | core_logic.py:344-351 | with no related keyword final_pass is 0 and there are no results |
| Pipeline.NonePassCount | core_logic.py:351 | when no row passes, the final count is 0 |
| Pipeline.ScreenRow | core_logic.py:273-292 | the stage checks for one row give its defined outcome |
| Pipeline.ExamineRow | core_logic.py:294-325 | the language, short-answer and employer stages give the defined outcome |
| Pipeline.MatchRow | core_logic.py:327-360 | the symbol and keyword stages give the defined outcome |
| Pipeline.ScreenEachSnoc | core_logic.py:268-360 | screening one more row appends its outcome |
| Pipeline.ScreenRows | core_logic.py:266-360 | the loop's counters and results are the tally and the passing rows of every row's outcome, and nothing when there is no "download" column |
| Pipeline.ProcessApplicants | core_logic.py:240-376 | the counters and results are those of the normalised table's rows; all zero and empty when normalisation leaves no "download" column |

## Left out

- Reading the CSV and its encoding fallback (core_logic.py:34-48) is not modelled; the table is an input.
- Loading the disallowed company list (core_logic.py:16-31, 430-440) is not modelled; the list is the `unallowed` field of the environment.
- PDF and DOCX text extraction (core_logic.py:469-489) are the functions `pdfText` and `docxText` of the environment.
- `os.path.join` and `os.path.isfile` (core_logic.py:274-275) are folded into the `isFile` function of the environment, which takes the file name.
- Language detection (core_logic.py:496-499) is the `detectsEnglish` function of the environment; only the 50-character gate is modelled.
- The spaCy model is an oracle: `Nlp` gives a text's tokens and a token's similarity to a keyword, a `real`. The embedding arithmetic is floating point and is not modelled.
- `all_required_keywords_present` and `get_found_optional` (core_logic.py:559-600) are not modelled, because nothing calls them.
- The Google Sheets and Streamlit parts are not modelled: credentials, worksheet creation, appending rows, `fillna` and the download button (core_logic.py:635-684, 734-751), and all of app.py. Only the column choice is.
- Writing `detailed_results.csv` (core_logic.py:363-364) and the debug output are not modelled.
- A result row is an `Applicant` value holding the row and the three found maps, rather than one dictionary that merges them.
- Cells are strings, with "" for a missing one. pandas' `NaN` cells, which read as "nan", are not modelled.
- Tables.RelabelRow: when two columns get the same new label (for example, several columns containing "resume"), the model keeps the last one's cell. pandas keeps duplicate labels; this case is not modelled.
- Keywords.FoundPlaces: the found maps are Dafny maps, so the key order of the source's dictionaries (the order of the keyword list) is not kept; it only affects display.
- Text is ASCII: `lower`, `\w`, `\d`, `isspace`, `splitlines` and `split()` follow Python's behaviour on ASCII characters only.
- Pipeline.Extension: `os.path.splitext` is modelled on the file name alone, without directory parts from the folder path.

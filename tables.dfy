/**
 * `normalize_dataframe`: the applicant table's columns are brought to one
 * standard form. A table is its column labels and its rows; a row maps a
 * label to the cell's text, a missing cell reading as "".
 */
module Tables {
  import opened Text
  import opened QaBlob

  type Row = map<string, string>

  /** The text of a cell, "" when the row has none. */
  function Cell(row: Row, column: string): string {
    if column in row then row[column] else ""
  }

  /** A table as a value: its column labels and its rows. */
  datatype Frame = Frame(columns: seq<string>, rows: seq<Row>)

  // ---------------------------------------------------------------------
  // Relabelling columns

  /** The row with every column of `cols` carried over to its new label. */
  function RelabelRow(row: Row, cols: seq<string>, relabel: string -> string): (r: Row)
    ensures forall c :: c in r.Keys ==> exists k :: 0 <= k < |cols| && relabel(cols[k]) == c
  {
    if cols == [] then map[]
    else
      var last := cols[|cols| - 1];
      RelabelRow(row, cols[..|cols| - 1], relabel)[relabel(last) := Cell(row, last)]
  }

  /** A cell moves with its column when no other column takes the same new label. */
  lemma {:induction false} RelabelRowCell(row: Row, cols: seq<string>, relabel: string -> string, k: int)
    requires 0 <= k < |cols|
    requires forall j :: 0 <= j < |cols| && j != k ==> relabel(cols[j]) != relabel(cols[k])
    ensures Cell(RelabelRow(row, cols, relabel), relabel(cols[k])) == Cell(row, cols[k])
  {
    var init := cols[..|cols| - 1];
    if k < |cols| - 1 {
      assert forall j :: 0 <= j < |init| && j != k ==> init[j] == cols[j];
      RelabelRowCell(row, init, relabel, k);
    }
  }

  function MapLabels(cols: seq<string>, relabel: string -> string): (r: seq<string>)
    ensures |r| == |cols| && forall k :: 0 <= k < |cols| ==> r[k] == relabel(cols[k])
  {
    seq(|cols|, k requires 0 <= k < |cols| => relabel(cols[k]))
  }

  /** Every column label replaced by `relabel` of it, in every row too. */
  function Relabel(f: Frame, relabel: string -> string): (g: Frame)
    ensures |g.rows| == |f.rows| && g.columns == MapLabels(f.columns, relabel)
  {
    Frame(MapLabels(f.columns, relabel),
          seq(|f.rows|, i requires 0 <= i < |f.rows| => RelabelRow(f.rows[i], f.columns, relabel)))
  }

  /** A column with "" in every row, added at the end when the label is missing. */
  function WithColumn(f: Frame, name: string): (g: Frame)
    ensures name in g.columns && |g.rows| == |f.rows| && f.columns <= g.columns
    ensures name in f.columns ==> g == f
    ensures name !in f.columns ==>
      g.columns == f.columns + [name] && forall i :: 0 <= i < |f.rows| ==> g.rows[i] == f.rows[i][name := ""]
  {
    if name in f.columns then f
    else Frame(f.columns + [name], seq(|f.rows|, i requires 0 <= i < |f.rows| => f.rows[i][name := ""]))
  }

  /** Lower-cased targets of the fixed rename table, and what each becomes. */
  function RenameTarget(lowered: string): Option<string> {
    if lowered == "name" then Some("name")
    else if lowered == "email" then Some("email")
    else if lowered == "creation time" then Some("created_at")
    else if lowered == "job title" then Some("job")
    else if lowered == "experiences" then Some("experience")
    else None
  }

  datatype Option<T> = None | Some(value: T)

  /**
   * The label after the rename table (matched ignoring case), then "resume"
   * anywhere in the name giving "download", then "answers" in any case giving
   * "answers".
   */
  function RenameLabel(c: string): string {
    var afterMap := match RenameTarget(Lower(c)) case Some(t) => t case None => c;
    var afterResume := if Contains(Lower(afterMap), "resume") && Lower(afterMap) != "download" then "download" else afterMap;
    if Lower(afterResume) == "answers" && afterResume != "answers" then "answers" else afterResume
  }

  // ---------------------------------------------------------------------
  // Question and answer columns

  /** A question column: its lower-cased label starts with "question". */
  predicate IsQuestionColumn(c: string) {
    StartsWith(Lower(c), "question") && Lower(c) != "answers"
  }

  /** An answer column: not a question column, starts with "answer", and is not "answers" in any case. */
  predicate IsAnswerColumn(c: string) {
    !IsQuestionColumn(c) && StartsWith(Lower(c), "answer") && Lower(c) != "answers"
  }

  /** The question columns of `cols`, in order. */
  function QuestionColumns(cols: seq<string>): (r: seq<string>)
    ensures forall k :: 0 <= k < |r| ==> IsQuestionColumn(r[k]) && r[k] in cols
  {
    if cols == [] then []
    else
      var init := QuestionColumns(cols[..|cols| - 1]);
      if IsQuestionColumn(cols[|cols| - 1]) then init + [cols[|cols| - 1]] else init
  }

  /** The answer columns of `cols`, in order. */
  function AnswerColumns(cols: seq<string>): (r: seq<string>)
    ensures forall k :: 0 <= k < |r| ==> IsAnswerColumn(r[k]) && r[k] in cols
  {
    if cols == [] then []
    else
      var init := AnswerColumns(cols[..|cols| - 1]);
      if IsAnswerColumn(cols[|cols| - 1]) then init + [cols[|cols| - 1]] else init
  }

  /** Every column in `cols` that is a question or answer column is in one of the two lists. */
  lemma {:induction false} ColumnsClassified(cols: seq<string>)
    ensures forall c :: c in cols && IsQuestionColumn(c) ==> c in QuestionColumns(cols)
    ensures forall c :: c in cols && IsAnswerColumn(c) ==> c in AnswerColumns(cols)
  {
    if cols != [] {
      var init := cols[..|cols| - 1];
      ColumnsClassified(init);
      assert cols == init + [cols[|cols| - 1]];
    }
  }

  // ---------------------------------------------------------------------
  // Sorting by the first number in the label

  function DecimalValue(digits: string): nat {
    if digits == [] then 0
    else 10 * DecimalValue(digits[..|digits| - 1]) + (digits[|digits| - 1] as int - '0' as int) % 10
  }

  /** `extract_number`: the first run of digits in the label, read as a number; 999 when there is none. */
  function ColumnNumber(c: string): int {
    var runs := Runs(c, IsDigit);
    if runs == [] then 999 else DecimalValue(runs[0])
  }

  /** Put `c` before the first entry whose key is at least its own. */
  function InsertByKey(key: string -> int, c: string, sorted: seq<string>): (r: seq<string>)
    ensures r != [] && (r[0] == c || (sorted != [] && r[0] == sorted[0]))
  {
    if sorted == [] || key(c) <= key(sorted[0]) then [c] + sorted
    else [sorted[0]] + InsertByKey(key, c, sorted[1..])
  }

  /** `list.sort(key=...)`: an insertion sort, which keeps equal keys in their order. */
  function SortByKey(key: string -> int, cols: seq<string>): seq<string> {
    if cols == [] then []
    else InsertByKey(key, cols[0], SortByKey(key, cols[1..]))
  }

  /** Inserting adds exactly the one entry. */
  lemma {:induction false} InsertByKeyPermutes(key: string -> int, c: string, sorted: seq<string>)
    ensures multiset(InsertByKey(key, c, sorted)) == multiset(sorted) + multiset{c}
  {
    if sorted != [] && key(c) > key(sorted[0]) {
      InsertByKeyPermutes(key, c, sorted[1..]);
      assert sorted == [sorted[0]] + sorted[1..];
    }
  }

  /** Sorting neither loses nor adds a column. */
  lemma {:induction false} SortByKeyPermutes(key: string -> int, cols: seq<string>)
    ensures multiset(SortByKey(key, cols)) == multiset(cols)
  {
    if cols != [] {
      SortByKeyPermutes(key, cols[1..]);
      InsertByKeyPermutes(key, cols[0], SortByKey(key, cols[1..]));
      assert cols == [cols[0]] + cols[1..];
    }
  }

  /** `list.sort(key=extract_number)`. */
  function SortByNumber(cols: seq<string>): (r: seq<string>)
    ensures multiset(r) == multiset(cols)
  {
    SortByKeyPermutes(ColumnNumber, cols);
    SortByKey(ColumnNumber, cols)
  }

  predicate SortedByKey(key: string -> int, s: seq<string>) {
    forall i, j :: 0 <= i < j < |s| ==> key(s[i]) <= key(s[j])
  }

  /** An entry no larger than the first of a sorted list can go in front of it. */
  lemma ConsSorted(key: string -> int, head: string, r: seq<string>)
    requires SortedByKey(key, r)
    requires r != [] ==> key(head) <= key(r[0])
    ensures SortedByKey(key, [head] + r)
  {
    var all := [head] + r;
    forall i, j | 0 <= i < j < |all|
      ensures key(all[i]) <= key(all[j])
    {
      assert all[j] == r[j - 1];
      if i > 0 {
        assert all[i] == r[i - 1];
      } else if j > 1 {
        assert key(r[0]) <= key(r[j - 1]);
      }
    }
  }

  lemma {:induction false} InsertKeepsSorted(key: string -> int, c: string, sorted: seq<string>)
    requires SortedByKey(key, sorted)
    ensures SortedByKey(key, InsertByKey(key, c, sorted))
  {
    if sorted == [] || key(c) <= key(sorted[0]) {
      ConsSorted(key, c, sorted);
    } else {
      InsertKeepsSorted(key, c, sorted[1..]);
      var r := InsertByKey(key, c, sorted[1..]);
      assert r[0] == c || r[0] == sorted[1];
      ConsSorted(key, sorted[0], r);
    }
  }

  /** The sorted list is in non-decreasing key order. */
  lemma {:induction false} SortByKeySorted(key: string -> int, cols: seq<string>)
    ensures SortedByKey(key, SortByKey(key, cols))
  {
    if cols != [] {
      SortByKeySorted(key, cols[1..]);
      InsertKeepsSorted(key, cols[0], SortByKey(key, cols[1..]));
    }
  }

  /** The entries of `s` whose key is `n`, in order. */
  function WithKey(key: string -> int, s: seq<string>, n: int): seq<string> {
    if s == [] then []
    else (if key(s[0]) == n then [s[0]] else []) + WithKey(key, s[1..], n)
  }

  lemma WithKeyCons(key: string -> int, x: string, s: seq<string>, n: int)
    ensures WithKey(key, [x] + s, n) == (if key(x) == n then [x] else []) + WithKey(key, s, n)
  {
    assert ([x] + s)[1..] == s;
  }

  lemma {:induction false} InsertStable(key: string -> int, c: string, sorted: seq<string>, n: int)
    ensures WithKey(key, InsertByKey(key, c, sorted), n)
         == (if key(c) == n then [c] else []) + WithKey(key, sorted, n)
  {
    if sorted == [] || key(c) <= key(sorted[0]) {
      WithKeyCons(key, c, sorted, n);
    } else {
      var r := InsertByKey(key, c, sorted[1..]);
      var rest := WithKey(key, sorted[1..], n);
      InsertStable(key, c, sorted[1..], n);
      WithKeyCons(key, sorted[0], r, n);
      assert [sorted[0]] + sorted[1..] == sorted;
      WithKeyCons(key, sorted[0], sorted[1..], n);
      if key(c) == n {
        assert WithKey(key, sorted, n) == rest;
      }
    }
  }

  /** Entries with the same key keep their relative order: the sort is stable. */
  lemma {:induction false} SortByKeyStable(key: string -> int, cols: seq<string>, n: int)
    ensures WithKey(key, SortByKey(key, cols), n) == WithKey(key, cols, n)
  {
    if cols != [] {
      SortByKeyStable(key, cols[1..], n);
      InsertStable(key, cols[0], SortByKey(key, cols[1..]), n);
    }
  }

  /** The question and answer columns come out in number order, equal numbers in table order. */
  lemma SortByNumberSortedStable(cols: seq<string>, n: int)
    ensures multiset(SortByNumber(cols)) == multiset(cols)
    ensures SortedByKey(ColumnNumber, SortByNumber(cols))
    ensures WithKey(ColumnNumber, SortByNumber(cols), n) == WithKey(ColumnNumber, cols, n)
  {
    SortByKeySorted(ColumnNumber, cols);
    SortByKeyStable(ColumnNumber, cols, n);
  }

  // ---------------------------------------------------------------------
  // Merging question and answer columns into "answers"

  /** The lines of positions 0 .. n - 1, position `i` contributing `pairAt(i)`. */
  function LinesOf(pairAt: nat -> seq<string>, n: nat): seq<string> {
    if n == 0 then [] else LinesOf(pairAt, n - 1) + pairAt(n - 1)
  }

  /** How many of positions 0 .. n - 1 are `filled`. */
  function CountOf(filled: nat -> bool, n: nat): nat {
    if n == 0 then 0 else CountOf(filled, n - 1) + (if filled(n - 1) then 1 else 0)
  }

  /** Two lines per filled position, each carrying the lead, when every position has that shape. */
  lemma {:induction false} LinesOfShape(pairAt: nat -> seq<string>, filled: nat -> bool, lead: string, n: nat)
    requires forall i: nat :: |pairAt(i)| == if filled(i) then 2 else 0
    requires forall i: nat, k :: 0 <= k < |pairAt(i)| ==> StartsWith(pairAt(i)[k], lead)
    ensures |LinesOf(pairAt, n)| == 2 * CountOf(filled, n)
    ensures forall k :: 0 <= k < |LinesOf(pairAt, n)| ==> StartsWith(LinesOf(pairAt, n)[k], lead)
  {
    if n > 0 {
      LinesOfShape(pairAt, filled, lead, n - 1);
      var pre := LinesOf(pairAt, n - 1);
      var pair := pairAt(n - 1);
      forall k | 0 <= k < |pre + pair|
        ensures StartsWith((pre + pair)[k], lead)
      {
        if k < |pre| {
          assert (pre + pair)[k] == pre[k];
        } else {
          assert (pre + pair)[k] == pair[k - |pre|];
        }
      }
    }
  }

  /** The question or the answer text at position `i` is non-empty. */
  predicate Filled(row: Row, questions: seq<string>, answers: seq<string>, i: nat) {
    (i < |questions| && Strip(Cell(row, questions[i])) != [])
    || (i < |answers| && Strip(Cell(row, answers[i])) != [])
  }

  /** The two lines for position `i`, or none when both texts there are empty. */
  function PairLines(row: Row, questions: seq<string>, answers: seq<string>, i: nat): seq<string> {
    var qText := if i < |questions| then Strip(Cell(row, questions[i])) else "";
    var aText := if i < |answers| then Strip(Cell(row, answers[i])) else "";
    var qLabel := if i < |questions| then questions[i] else "Question";
    var aLabel := if i < |answers| then answers[i] else "Answer";
    if qText != [] || aText != [] then
      [Separator + " " + qLabel + ": " + qText, Separator + " " + aLabel + ": " + aText]
    else []
  }

  function PairsOf(row: Row, questions: seq<string>, answers: seq<string>): nat -> seq<string> {
    (i: nat) => PairLines(row, questions, answers, i)
  }

  function FilledOf(row: Row, questions: seq<string>, answers: seq<string>): nat -> bool {
    (i: nat) => Filled(row, questions, answers, i)
  }

  /** The lines for the first `n` positions. */
  function LinesUpTo(row: Row, questions: seq<string>, answers: seq<string>, n: nat): seq<string> {
    LinesOf(PairsOf(row, questions, answers), n)
  }

  /** The number of positions below `n` where the question or the answer text is non-empty. */
  function FilledPositions(row: Row, questions: seq<string>, answers: seq<string>, n: nat): nat {
    CountOf(FilledOf(row, questions, answers), n)
  }

  /** A merged line starts with the separator and a space. */
  lemma LineLed(heading: string, text: string)
    ensures StartsWith(Separator + " " + heading + ": " + text, Separator + " ")
  {
    var lead := Separator + " ";
    assert Separator + " " + heading + ": " + text == lead + (heading + ": " + text);
  }

  /** The pair for one position: two separator-led lines exactly when a text there is non-empty. */
  lemma PairLinesShape(row: Row, questions: seq<string>, answers: seq<string>, i: nat)
    ensures |PairLines(row, questions, answers, i)| == if Filled(row, questions, answers, i) then 2 else 0
    ensures forall k :: 0 <= k < |PairLines(row, questions, answers, i)| ==>
      StartsWith(PairLines(row, questions, answers, i)[k], Separator + " ")
  {
    var qText := if i < |questions| then Strip(Cell(row, questions[i])) else "";
    var aText := if i < |answers| then Strip(Cell(row, answers[i])) else "";
    var qLabel := if i < |questions| then questions[i] else "Question";
    var aLabel := if i < |answers| then answers[i] else "Answer";
    LineLed(qLabel, qText);
    LineLed(aLabel, aText);
  }

  /** Two lines per filled position, each led by the separator. */
  lemma LinesUpToShape(row: Row, questions: seq<string>, answers: seq<string>, n: nat)
    ensures |LinesUpTo(row, questions, answers, n)| == 2 * FilledPositions(row, questions, answers, n)
    ensures forall k :: 0 <= k < |LinesUpTo(row, questions, answers, n)| ==>
      StartsWith(LinesUpTo(row, questions, answers, n)[k], Separator + " ")
  {
    var pairAt := PairsOf(row, questions, answers);
    var filled := FilledOf(row, questions, answers);
    forall i: nat
      ensures |pairAt(i)| == if filled(i) then 2 else 0
      ensures forall k :: 0 <= k < |pairAt(i)| ==> StartsWith(pairAt(i)[k], Separator + " ")
    {
      PairLinesShape(row, questions, answers, i);
    }
    LinesOfShape(pairAt, filled, Separator + " ", n);
  }

  /** The merged question/answer text of a row. */
  function Combined(row: Row, questions: seq<string>, answers: seq<string>): string {
    var n := if |questions| >= |answers| then |questions| else |answers|;
    Strip(Join(LinesUpTo(row, questions, answers, n), "\n"))
  }

  /** The new "answers" text: the existing text, a newline and the merged text, or whichever is non-empty. */
  function MergedAnswers(existing: string, combined: string): (r: string)
    ensures combined == [] ==> r == existing
    ensures existing == [] ==> r == combined
    ensures existing != [] && combined != [] ==> r == existing + "\n" + combined
  {
    if combined == [] then existing
    else if existing != [] then existing + "\n" + combined
    else combined
  }

  /** One row after the merge: only its "answers" cell may change. */
  function MergeRow(row: Row, questions: seq<string>, answers: seq<string>): Row {
    var combined := Combined(row, questions, answers);
    if combined == [] then row else row["answers" := MergedAnswers(Cell(row, "answers"), combined)]
  }

  /** A row without the cells of the dropped columns. */
  function DropCells(row: Row, dropped: set<string>): Row {
    map c | c in row.Keys && c !in dropped :: row[c]
  }

  /** The columns not dropped, in order. */
  function KeptColumns(cols: seq<string>, dropped: set<string>): (r: seq<string>)
    ensures forall k :: 0 <= k < |r| ==> r[k] !in dropped && r[k] in cols
  {
    if cols == [] then []
    else
      var init := KeptColumns(cols[..|cols| - 1], dropped);
      if cols[|cols| - 1] in dropped then init else init + [cols[|cols| - 1]]
  }

  /** The table after every step of `normalize_dataframe` up to the merge. */
  function Relabelled(f: Frame): Frame {
    Relabel(WithColumn(Relabel(f, Strip), "id"), RenameLabel)
  }

  /** Every row merged. */
  function MergedRows(rows: seq<Row>, questions: seq<string>, answers: seq<string>): (r: seq<Row>)
    ensures |r| == |rows|
  {
    seq(|rows|, i requires 0 <= i < |rows| => MergeRow(rows[i], questions, answers))
  }

  /** Every row without the dropped cells. */
  function DroppedRows(rows: seq<Row>, dropped: set<string>): (r: seq<Row>)
    ensures |r| == |rows|
  {
    seq(|rows|, i requires 0 <= i < |rows| => DropCells(rows[i], dropped))
  }

  /** The question and answer columns are merged into "answers", then dropped. */
  function MergeAndDrop(h: Frame, questions: seq<string>, answers: seq<string>): Frame {
    var dropped := set c | c in questions + answers;
    Frame(KeptColumns(h.columns, dropped), DroppedRows(MergedRows(h.rows, questions, answers), dropped))
  }

  /** The table just before the merge: relabelled, and with an "answers" column. */
  function Prepared(f: Frame): Frame {
    WithColumn(Relabelled(f), "answers")
  }

  /** The question columns, sorted by number. */
  function QuestionOrder(f: Frame): seq<string> {
    SortByNumber(QuestionColumns(Relabelled(f).columns))
  }

  /** The answer columns, sorted by number. */
  function AnswerOrder(f: Frame): seq<string> {
    SortByNumber(AnswerColumns(Relabelled(f).columns))
  }

  /** What `normalize_dataframe` makes of a table. */
  function Normalized(f: Frame): Frame {
    MergeAndDrop(Prepared(f), QuestionOrder(f), AnswerOrder(f))
  }

  // ---------------------------------------------------------------------
  // The table, updated in place

  class Table {
    var columns: seq<string>
    var rows: seq<Row>

    constructor (columns: seq<string>, rows: seq<Row>)
      ensures this.columns == columns && this.rows == rows
    {
      this.columns := columns;
      this.rows := rows;
    }

    function Value(): Frame
      reads this
    {
      Frame(columns, rows)
    }

    /** `df.columns = [c.strip() for c in df.columns]` and the renames: relabel every column. */
    method RelabelColumns(relabel: string -> string)
      modifies this
      ensures Value() == Relabel(old(Value()), relabel)
    {
      var newRows: seq<Row> := [];
      var i := 0;
      while i < |rows|
        invariant 0 <= i <= |rows|
        invariant |newRows| == i
        invariant forall j :: 0 <= j < i ==> newRows[j] == RelabelRow(rows[j], columns, relabel)
      {
        newRows := newRows + [RelabelRow(rows[i], columns, relabel)];
        i := i + 1;
      }
      columns := MapLabels(columns, relabel);
      rows := newRows;
    }

    /** `if name not in df.columns: df[name] = ""`. */
    method EnsureColumn(name: string)
      modifies this
      ensures Value() == WithColumn(old(Value()), name)
    {
      if name !in columns {
        var newRows: seq<Row> := [];
        var i := 0;
        while i < |rows|
          invariant 0 <= i <= |rows|
          invariant |newRows| == i
          invariant forall j :: 0 <= j < i ==> newRows[j] == rows[j][name := ""]
        {
          newRows := newRows + [rows[i][name := ""]];
          i := i + 1;
        }
        columns := columns + [name];
        rows := newRows;
      }
    }

    /** The question and answer columns, in table order. */
    method ClassifyQaColumns() returns (questions: seq<string>, answers: seq<string>)
      ensures questions == QuestionColumns(columns) && answers == AnswerColumns(columns)
    {
      questions, answers := [], [];
      var i := 0;
      while i < |columns|
        invariant 0 <= i <= |columns|
        invariant questions == QuestionColumns(columns[..i]) && answers == AnswerColumns(columns[..i])
      {
        assert columns[..i + 1][..i] == columns[..i];
        var c := columns[i];
        if IsQuestionColumn(c) {
          questions := questions + [c];
        } else if IsAnswerColumn(c) {
          answers := answers + [c];
        }
        i := i + 1;
      }
      assert columns[..i] == columns;
    }

    /** Merge every row's question and answer cells into its "answers" cell. */
    method MergeIntoAnswers(questions: seq<string>, answers: seq<string>)
      modifies this
      ensures columns == old(columns)
      ensures rows == MergedRows(old(rows), questions, answers)
    {
      var idx := 0;
      while idx < |rows|
        invariant 0 <= idx <= |rows| && |rows| == |old(rows)| && columns == old(columns)
        invariant forall j :: 0 <= j < idx ==> rows[j] == MergeRow(old(rows)[j], questions, answers)
        invariant forall j :: idx <= j < |rows| ==> rows[j] == old(rows)[j]
      {
        var row := rows[idx];
        var lines := RowLines(row, questions, answers);
        var combined := Strip(Join(lines, "\n"));
        assert combined == Combined(row, questions, answers);
        if combined != [] {
          var existing := Cell(row, "answers");
          var newValue;
          if existing != [] {
            newValue := existing + "\n" + combined;
          } else {
            newValue := combined;
          }
          assert newValue == MergedAnswers(Cell(row, "answers"), combined);
          rows := rows[idx := row["answers" := newValue]];
        }
        assert rows[idx] == MergeRow(old(rows)[idx], questions, answers);
        idx := idx + 1;
      }
      assert forall j :: 0 <= j < |rows| ==> rows[j] == MergedRows(old(rows), questions, answers)[j];
    }

    /** `df.drop(columns=...)`: remove the listed columns and their cells. */
    method DropColumns(dropped: set<string>)
      modifies this
      ensures columns == KeptColumns(old(columns), dropped)
      ensures rows == DroppedRows(old(rows), dropped)
    {
      columns := KeptColumns(columns, dropped);
      rows := DroppedRows(rows, dropped);
    }

    /** `normalize_dataframe`. */
    method Normalize()
      modifies this
      ensures Value() == Normalized(old(Value()))
    {
      ghost var start := Value();
      RelabelColumns(Strip);
      EnsureColumn("id");
      RelabelColumns(RenameLabel);
      ghost var g := Value();
      assert g == Relabelled(start);
      var questions, answers := ClassifyQaColumns();
      questions := SortByNumber(questions);
      answers := SortByNumber(answers);
      EnsureColumn("answers");
      ghost var h := Value();
      assert h == WithColumn(g, "answers");
      MergeIntoAnswers(questions, answers);
      var dropped := set c | c in questions + answers;
      DropColumns(dropped);
      assert Value() == MergeAndDrop(h, questions, answers);
    }
  }

  /** The merge loop over every position up to the longer of the two column lists. */
  method RowLines(row: Row, questions: seq<string>, answers: seq<string>) returns (lines: seq<string>)
    ensures lines == LinesUpTo(row, questions, answers, if |questions| >= |answers| then |questions| else |answers|)
  {
    var maxLen := if |questions| >= |answers| then |questions| else |answers|;
    lines := [];
    var i := 0;
    while i < maxLen
      invariant 0 <= i <= maxLen
      invariant lines == LinesUpTo(row, questions, answers, i)
    {
      ghost var before := lines;
      var qText := if i < |questions| then Strip(Cell(row, questions[i])) else "";
      var aText := if i < |answers| then Strip(Cell(row, answers[i])) else "";
      if qText != [] || aText != [] {
        var qLabel := if i < |questions| then questions[i] else "Question";
        var aLabel := if i < |answers| then answers[i] else "Answer";
        lines := lines + [Separator + " " + qLabel + ": " + qText, Separator + " " + aLabel + ": " + aText];
      }
      assert lines == before + PairLines(row, questions, answers, i);
      assert LinesUpTo(row, questions, answers, i + 1) == before + PairsOf(row, questions, answers)(i);
      i := i + 1;
    }
  }

  // ---------------------------------------------------------------------
  // What normalisation guarantees

  lemma SortedMembers(cols: seq<string>)
    ensures forall c :: c in SortByNumber(cols) <==> c in cols
  {
    assert multiset(SortByNumber(cols)) == multiset(cols);
    assert forall c :: c in SortByNumber(cols) <==> c in multiset(SortByNumber(cols));
  }

  lemma {:induction false} KeptColumnsKeep(cols: seq<string>, dropped: set<string>, c: string)
    requires c in cols && c !in dropped
    ensures c in KeptColumns(cols, dropped)
  {
    var init := cols[..|cols| - 1];
    if c != cols[|cols| - 1] {
      assert c in init;
      KeptColumnsKeep(init, dropped, c);
    }
  }

  /** Dropping cells leaves the cells of the kept columns as they were. */
  lemma DropCellsCell(row: Row, dropped: set<string>, c: string)
    requires c !in dropped
    ensures Cell(DropCells(row, dropped), c) == Cell(row, c)
  {
  }

  /** A dropped column is a question or an answer column. */
  lemma DroppedAreQa(f: Frame, c: string)
    requires c in QuestionOrder(f) + AnswerOrder(f)
    ensures IsQuestionColumn(c) || IsAnswerColumn(c)
  {
    SortedMembers(QuestionColumns(Relabelled(f).columns));
    SortedMembers(AnswerColumns(Relabelled(f).columns));
  }

  /** The merge-and-drop keeps exactly the columns not merged, and their cells. */
  lemma MergeAndDropColumns(h: Frame, questions: seq<string>, answers: seq<string>)
    ensures forall c :: c in MergeAndDrop(h, questions, answers).columns ==> c in h.columns && c !in questions + answers
    ensures forall c :: c in h.columns && c !in questions + answers ==> c in MergeAndDrop(h, questions, answers).columns
    ensures |MergeAndDrop(h, questions, answers).rows| == |h.rows|
  {
    var dropped := set c | c in questions + answers;
    forall c | c in h.columns && c !in questions + answers
      ensures c in MergeAndDrop(h, questions, answers).columns
    {
      KeptColumnsKeep(h.columns, dropped, c);
    }
  }

  lemma MergeAndDropCell(h: Frame, questions: seq<string>, answers: seq<string>, i: int, c: string)
    requires 0 <= i < |h.rows| && c !in questions + answers
    ensures Cell(MergeAndDrop(h, questions, answers).rows[i], c) == Cell(MergeRow(h.rows[i], questions, answers), c)
  {
    var dropped := set c | c in questions + answers;
    DropCellsCell(MergeRow(h.rows[i], questions, answers), dropped, c);
  }

  lemma ResumeAt(s: string, i: int)
    requires OccursAt(s, "resume", i)
    ensures s[i] == 'r' && s[i + 1] == 'e' && s[i + 2] == 's'
  {
    assert s[i + 0] == "resume"[0] && s[i + 1] == "resume"[1] && s[i + 2] == "resume"[2];
  }

  /** Neither "download" nor any name of the rename table mentions "resume". */
  lemma FixedNamesHaveNoResume(lowered: string)
    requires RenameTarget(lowered).Some? || lowered == "download"
    ensures !Contains(lowered, "resume")
  {
    if Contains(lowered, "resume") {
      var i :| 0 <= i <= |lowered| - 6 && OccursAt(lowered, "resume", i);
      ResumeAt(lowered, i);
      assert false;
    }
  }

  /** A column whose name mentions "resume", in any case, becomes "download". */
  lemma ResumeColumnBecomesDownload(c: string)
    requires Contains(Lower(c), "resume")
    ensures RenameLabel(c) == "download"
  {
    if RenameTarget(Lower(c)).Some? {
      FixedNamesHaveNoResume(Lower(c));
    }
    FixedNamesHaveNoResume("download");
    assert |Lower("download")| == 8;
  }

  /** "id" survives every rename. */
  lemma RenameKeepsId()
    ensures RenameLabel("id") == "id"
  {
    assert |Lower("id")| == 2;
    assert !Contains(Lower("id"), "resume");
  }

  /** The relabelled table has an "id" column, the prepared one an "answers" column too. */
  lemma PreparedHasIdAndAnswers(f: Frame)
    ensures "id" in Prepared(f).columns && "answers" in Prepared(f).columns
    ensures |Prepared(f).rows| == |f.rows|
  {
    var g0 := WithColumn(Relabel(f, Strip), "id");
    var k :| 0 <= k < |g0.columns| && g0.columns[k] == "id";
    RenameKeepsId();
    assert Relabelled(f).columns[k] == "id";
  }

  /** Neither "id" nor "answers" is a question or answer column. */
  lemma IdAndAnswersNotQa()
    ensures !IsQuestionColumn("id") && !IsAnswerColumn("id")
    ensures !IsQuestionColumn("answers") && !IsAnswerColumn("answers")
  {
    assert |Lower("id")| == 2 && |Lower("answers")| == 7;
    LowerOfLowerCase("answers");
  }

  /** The result has the same number of rows, an "id" and an "answers" column. */
  lemma NormalizedHasIdAndAnswers(f: Frame)
    ensures |Normalized(f).rows| == |f.rows|
    ensures "id" in Normalized(f).columns && "answers" in Normalized(f).columns
  {
    PreparedHasIdAndAnswers(f);
    IdAndAnswersNotQa();
    if "id" in QuestionOrder(f) + AnswerOrder(f) {
      DroppedAreQa(f, "id");
    }
    if "answers" in QuestionOrder(f) + AnswerOrder(f) {
      DroppedAreQa(f, "answers");
    }
    MergeAndDropColumns(Prepared(f), QuestionOrder(f), AnswerOrder(f));
  }

  /** No question or answer column is left in the result. */
  lemma NoQaColumnsRemain(f: Frame)
    ensures forall c :: c in Normalized(f).columns ==> !IsQuestionColumn(c) && !IsAnswerColumn(c)
  {
    var g := Relabelled(f);
    ColumnsClassified(g.columns);
    SortedMembers(QuestionColumns(g.columns));
    SortedMembers(AnswerColumns(g.columns));
    IdAndAnswersNotQa();
    MergeAndDropColumns(Prepared(f), QuestionOrder(f), AnswerOrder(f));
    forall c | c in Normalized(f).columns
      ensures !IsQuestionColumn(c) && !IsAnswerColumn(c)
    {
      assert c in Prepared(f).columns && c !in QuestionOrder(f) + AnswerOrder(f);
      if c !in g.columns {
        assert c == "answers";
      }
    }
  }

  /** When the table had no "answers" column, every row's "answers" cell starts out blank. */
  lemma AddedAnswersBlank(f: Frame, i: int)
    requires 0 <= i < |f.rows| && "answers" !in Relabelled(f).columns
    ensures "answers" in Prepared(f).columns && Cell(Prepared(f).rows[i], "answers") == ""
  {
    assert |Relabelled(f).rows| == |f.rows|;
  }

  /** Each row's "answers" cell: its earlier text followed by the merged question/answer lines. */
  lemma NormalizedAnswers(f: Frame, i: int)
    requires 0 <= i < |f.rows|
    ensures var row := Prepared(f).rows[i];
      Cell(Normalized(f).rows[i], "answers")
        == MergedAnswers(Cell(row, "answers"), Combined(row, QuestionOrder(f), AnswerOrder(f)))
  {
    IdAndAnswersNotQa();
    if "answers" in QuestionOrder(f) + AnswerOrder(f) {
      DroppedAreQa(f, "answers");
    }
    PreparedHasIdAndAnswers(f);
    MergeAndDropCell(Prepared(f), QuestionOrder(f), AnswerOrder(f), i, "answers");
  }

  /** Every other kept column's cell is as it was before the merge. */
  lemma NormalizedOtherCells(f: Frame, i: int, c: string)
    requires 0 <= i < |f.rows|
    requires c in Normalized(f).columns && c != "answers"
    ensures Cell(Normalized(f).rows[i], c) == Cell(Prepared(f).rows[i], c)
  {
    MergeAndDropColumns(Prepared(f), QuestionOrder(f), AnswerOrder(f));
    PreparedHasIdAndAnswers(f);
    MergeAndDropCell(Prepared(f), QuestionOrder(f), AnswerOrder(f), i, c);
  }

  /** A row whose question and answer cells are all blank is left as it was by the merge. */
  lemma BlankQaLeavesRow(row: Row, questions: seq<string>, answers: seq<string>)
    requires FilledPositions(row, questions, answers, if |questions| >= |answers| then |questions| else |answers|) == 0
    ensures MergeRow(row, questions, answers) == row
  {
    LinesUpToShape(row, questions, answers, if |questions| >= |answers| then |questions| else |answers|);
  }
}

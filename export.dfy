/**
 * The column choice of `append_first_8_columns_to_google_sheet`: which of
 * the result table's columns go to the sheet, and in what order. Writing to
 * the sheet is not part of this model.
 */
module Export {

  /** Columns never sent to the sheet. */
  const Unwanted: seq<string> := ["download", "found_symbols", "found_required", "found_optional", "experience"]

  /** The most columns the sheet takes. */
  const SheetWidth: nat := 8

  /** `drop(columns=drop_cols, errors="ignore")`: the columns that are not unwanted, in order. */
  function DropUnwanted(cols: seq<string>): (r: seq<string>)
    ensures forall k :: 0 <= k < |r| ==> r[k] !in Unwanted && r[k] in cols
    ensures forall c :: c in cols && c !in Unwanted ==> c in r
  {
    if cols == [] then []
    else (if cols[0] in Unwanted then [] else [cols[0]]) + DropUnwanted(cols[1..])
  }

  /** `list.remove(x)` of a present `x`: the first occurrence goes. */
  function RemoveFirst(cols: seq<string>, x: string): (r: seq<string>)
    requires x in cols
    ensures |r| == |cols| - 1
    ensures forall c :: c in r ==> c in cols
    ensures forall c :: c in cols && c != x ==> c in r
  {
    if cols[0] == x then cols[1..] else [cols[0]] + RemoveFirst(cols[1..], x)
  }

  /** "id" moved to the front and "answers" to the back, when present. */
  function Proposed(cols: seq<string>): (r: seq<string>)
    ensures |r| == |cols|
    ensures forall c :: c in r ==> c in cols
  {
    var withoutId := if "id" in cols then RemoveFirst(cols, "id") else cols;
    var middle := if "answers" in cols then RemoveFirst(withoutId, "answers") else withoutId;
    (if "id" in cols then ["id"] else []) + middle + (if "answers" in cols then ["answers"] else [])
  }

  /** `finalize_columns`: at most eight columns, keeping "id" first and "answers" last. */
  function FinalizeColumns(order: seq<string>, hasId: bool, hasAnswers: bool): (r: seq<string>)
    ensures |r| == if |order| <= SheetWidth then |order| else SheetWidth
    ensures |order| <= SheetWidth ==> r == order
  {
    if |order| <= SheetWidth then order
    else if hasId && hasAnswers then ["id"] + order[1..|order| - 1][..6] + ["answers"]
    else if hasId then ["id"] + order[1..][..7]
    else if hasAnswers then order[..|order| - 1][..7] + ["answers"]
    else order[..8]
  }

  /** The columns sent to the sheet, in order. */
  function SheetColumns(cols: seq<string>): seq<string> {
    var kept := DropUnwanted(cols);
    FinalizeColumns(Proposed(kept), "id" in kept, "answers" in kept)
  }

  /** `idx` places each entry of `a` at a strictly later position of `b`. */
  predicate Embeds(idx: seq<int>, a: seq<string>, b: seq<string>) {
    |idx| == |a|
    && (forall k :: 0 <= k < |a| ==> 0 <= idx[k] < |b| && a[k] == b[idx[k]])
    && (forall k, l :: 0 <= k < l < |a| ==> idx[k] < idx[l])
  }

  /** `a` is `b` with some entries left out. */
  ghost predicate SubsequenceOf(a: seq<string>, b: seq<string>) {
    exists idx :: Embeds(idx, a, b)
  }

  /** The reordered list starts with "id" and ends with "answers" when they are present. */
  lemma ProposedEnds(cols: seq<string>)
    ensures "id" in cols ==> Proposed(cols)[0] == "id"
    ensures "answers" in cols ==> Proposed(cols)[|cols| - 1] == "answers"
  {
  }

  /** The sheet gets exactly min(n, 8) of the n wanted columns; all of them when there are at most eight. */
  lemma SheetColumnsCount(cols: seq<string>)
    ensures |SheetColumns(cols)| == if |DropUnwanted(cols)| <= SheetWidth then |DropUnwanted(cols)| else SheetWidth
    ensures |DropUnwanted(cols)| <= SheetWidth ==> SheetColumns(cols) == Proposed(DropUnwanted(cols))
  {
  }

  /** Keeping the first eight, or the first seven and the last, keeps a subsequence. */
  lemma FrontAndBackSubsequence(order: seq<string>, r: seq<string>, keepLast: bool)
    requires |order| > SheetWidth && |r| == SheetWidth
    requires forall k :: 0 <= k < 7 ==> r[k] == order[k]
    requires r[7] == if keepLast then order[|order| - 1] else order[7]
    ensures SubsequenceOf(r, order)
  {
    var n := |order|;
    var idx := seq(8, k => if k < 7 || !keepLast then k else n - 1);
    assert Embeds(idx, r, order);
  }

  /** `finalize_columns` keeps a subsequence of the list it is given, when "id" and "answers" sit at its ends. */
  lemma FinalizeSubsequence(order: seq<string>, hasId: bool, hasAnswers: bool)
    requires hasId ==> |order| > 0 && order[0] == "id"
    requires hasAnswers ==> |order| > 0 && order[|order| - 1] == "answers"
    ensures SubsequenceOf(FinalizeColumns(order, hasId, hasAnswers), order)
  {
    var r := FinalizeColumns(order, hasId, hasAnswers);
    var n := |order|;
    if n <= SheetWidth {
      var idx := seq(n, k => k);
      assert Embeds(idx, r, order);
    } else if hasId && hasAnswers {
      var middle := order[1..n - 1][..6];
      assert r == ["id"] + middle + ["answers"];
      assert forall k :: 1 <= k < 7 ==> r[k] == middle[k - 1] == order[k];
      assert r[0] == order[0] && r[7] == order[n - 1];
      FrontAndBackSubsequence(order, r, true);
    } else if hasId {
      var middle := order[1..][..7];
      assert r == ["id"] + middle;
      assert forall k :: 1 <= k < 8 ==> r[k] == middle[k - 1] == order[k];
      FrontAndBackSubsequence(order, r, false);
    } else if hasAnswers {
      var front := order[..n - 1][..7];
      assert r == front + ["answers"];
      assert forall k :: 0 <= k < 7 ==> r[k] == front[k] == order[k];
      assert r[7] == order[n - 1];
      FrontAndBackSubsequence(order, r, true);
    } else {
      FrontAndBackSubsequence(order, r, false);
    }
  }

  /** The sheet's columns are the reordered list with some of its middle left out. */
  lemma SheetColumnsSubsequence(cols: seq<string>)
    ensures SubsequenceOf(SheetColumns(cols), Proposed(DropUnwanted(cols)))
  {
    var kept := DropUnwanted(cols);
    ProposedEnds(kept);
    FinalizeSubsequence(Proposed(kept), "id" in kept, "answers" in kept);
  }

  /** "id" comes first and "answers" last whenever they are among the wanted columns. */
  lemma SheetColumnsEnds(cols: seq<string>)
    ensures "id" in DropUnwanted(cols) ==> |SheetColumns(cols)| > 0 && SheetColumns(cols)[0] == "id"
    ensures "answers" in DropUnwanted(cols) ==>
      |SheetColumns(cols)| > 0 && SheetColumns(cols)[|SheetColumns(cols)| - 1] == "answers"
  {
    ProposedEnds(DropUnwanted(cols));
  }

  /** No unwanted column reaches the sheet, and every column sent is one of the table's. */
  lemma SheetColumnsWanted(cols: seq<string>)
    ensures forall c :: c in SheetColumns(cols) ==> c !in Unwanted && c in cols
  {
    var kept := DropUnwanted(cols);
    var order := Proposed(kept);
    SheetColumnsSubsequence(cols);
    var idx :| Embeds(idx, SheetColumns(cols), order);
    forall c | c in SheetColumns(cols)
      ensures c !in Unwanted && c in cols
    {
      var k :| 0 <= k < |SheetColumns(cols)| && SheetColumns(cols)[k] == c;
      assert c == order[idx[k]];
      assert c in kept;
    }
  }
}

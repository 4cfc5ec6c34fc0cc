// The diff of the code editor, as the loops that compute it
// (app/src/editor/codeMirrorWebViewEntry.ts; the same code is in
// app/src/editor/CodeEditorView.web.tsx).
module LineDiff {
  import opened LineDiffSpec
  import opened ChangedLinesSpec
  import opened Numbers

  const TABLE_LIMIT: nat := 250_000

  /** The table of longest common subsequences, as the loops index it. */
  function Cell(before: seq<Text>, after: seq<Text>, row: nat, column: nat): (n: nat)
    requires row <= |before| && column <= |after|
    decreases |before| - row + |after| - column
  {
    if row == |before| || column == |after| then 0
    else if before[row] == after[column] then Cell(before, after, row + 1, column + 1) + 1
    else Max(Cell(before, after, row + 1, column), Cell(before, after, row, column + 1))
  }

  lemma {:induction false} CellIsLcs(before: seq<Text>, after: seq<Text>, row: nat, column: nat)
    requires row <= |before| && column <= |after|
    ensures Cell(before, after, row, column) == Lcs(before[row..], after[column..])
    decreases |before| - row + |after| - column
  {
    if row < |before| && column < |after| {
      assert before[row..][1..] == before[row + 1..] && after[column..][1..] == after[column + 1..];
      CellIsLcs(before, after, row + 1, column + 1);
      CellIsLcs(before, after, row + 1, column);
      CellIsLcs(before, after, row, column + 1);
    }
  }

  ghost predicate RowDone(before: seq<Text>, after: seq<Text>, table: array2<nat>, row: nat)
    requires table.Length0 == |before| + 1 && table.Length1 == |after| + 1 && row <= |before|
    reads table
  {
    forall j :: 0 <= j <= |after| ==> table[row, j] == Cell(before, after, row, j)
  }

  method FillRow(before: seq<Text>, after: seq<Text>, table: array2<nat>, row: nat)
    requires table.Length0 == |before| + 1 && table.Length1 == |after| + 1 && row < |before|
    requires RowDone(before, after, table, row + 1) && table[row, |after|] == 0
    modifies table
    ensures RowDone(before, after, table, row)
    ensures forall i :: row < i <= |before| && old(RowDone(before, after, table, i)) ==> RowDone(before, after, table, i)
    ensures forall i, j :: 0 <= i <= |before| && i != row && 0 <= j <= |after| ==> table[i, j] == old(table[i, j])
  {
    var column := |after|;
    while column > 0
      invariant 0 <= column <= |after|
      invariant forall i, j :: 0 <= i <= |before| && i != row && 0 <= j <= |after| ==> table[i, j] == old(table[i, j])
      invariant forall j :: column <= j <= |after| ==> table[row, j] == Cell(before, after, row, j)
    {
      column := column - 1;
      assert table[row + 1, column] == old(table[row + 1, column]) == Cell(before, after, row + 1, column);
      assert table[row + 1, column + 1] == old(table[row + 1, column + 1]) == Cell(before, after, row + 1, column + 1);
      table[row, column] :=
        if before[row] == after[column] then table[row + 1, column + 1] + 1
        else Max(table[row + 1, column], table[row, column + 1]);
    }
  }

  method FillTable(before: seq<Text>, after: seq<Text>) returns (table: array2<nat>)
    ensures fresh(table) && table.Length0 == |before| + 1 && table.Length1 == |after| + 1
    ensures forall i :: 0 <= i <= |before| ==> RowDone(before, after, table, i)
  {
    table := new nat[|before| + 1, |after| + 1]((_, _) => 0);
    var row := |before|;
    while row > 0
      invariant 0 <= row <= |before|
      invariant forall i :: row <= i <= |before| ==> RowDone(before, after, table, i)
      invariant forall i, j :: 0 <= i < row && 0 <= j <= |after| ==> table[i, j] == 0
    {
      row := row - 1;
      FillRow(before, after, table, row);
    }
  }

  /** What the walk still has to emit from a position of the two texts. */
  function Rest(before: seq<Text>, after: seq<Text>, row: nat, column: nat): (script: seq<DiffLine>)
    requires row <= |before| && column <= |after|
  {
    Walk(before[row..], after[column..])
  }

  lemma RestStep(before: seq<Text>, after: seq<Text>, row: nat, column: nat)
    requires row <= |before| && column <= |after|
    ensures row == |before| && column == |after| ==> Rest(before, after, row, column) == []
    ensures row < |before| && column == |after| ==>
              Rest(before, after, row, column) == [Delete(before[row])] + Rest(before, after, row + 1, column)
    ensures row == |before| && column < |after| ==>
              Rest(before, after, row, column) == [Add(after[column])] + Rest(before, after, row, column + 1)
    ensures row < |before| && column < |after| ==>
              Rest(before, after, row, column) ==
              if before[row] == after[column] then [Context(before[row])] + Rest(before, after, row + 1, column + 1)
              else if Cell(before, after, row + 1, column) >= Cell(before, after, row, column + 1)
              then [Delete(before[row])] + Rest(before, after, row + 1, column)
              else [Add(after[column])] + Rest(before, after, row, column + 1)
  {
    if row < |before| {
      assert before[row..][1..] == before[row + 1..];
      CellIsLcs(before, after, row + 1, column);
    }
    if column < |after| {
      assert after[column..][1..] == after[column + 1..];
      CellIsLcs(before, after, row, column + 1);
    }
  }

  /** One turn of the walk, at a position where both texts have lines left. */
  method WalkTurn(before: seq<Text>, after: seq<Text>, table: array2<nat>, row: nat, column: nat)
    returns (line: DiffLine, nextRow: nat, nextColumn: nat)
    requires table.Length0 == |before| + 1 && table.Length1 == |after| + 1
    requires forall i :: 0 <= i <= |before| ==> RowDone(before, after, table, i)
    requires row < |before| && column < |after|
    ensures row <= nextRow <= |before| && column <= nextColumn <= |after| && row + column < nextRow + nextColumn
    ensures Rest(before, after, row, column) == [line] + Rest(before, after, nextRow, nextColumn)
  {
    RestStep(before, after, row, column);
    if before[row] == after[column] {
      return Context(before[row]), row + 1, column + 1;
    }
    assert RowDone(before, after, table, row + 1) && RowDone(before, after, table, row);
    if table[row + 1, column] >= table[row, column + 1] {
      return Delete(before[row]), row + 1, column;
    }
    return Add(after[column]), row, column + 1;
  }

  method WalkTable(before: seq<Text>, after: seq<Text>, table: array2<nat>) returns (result: seq<DiffLine>)
    requires table.Length0 == |before| + 1 && table.Length1 == |after| + 1
    requires forall i :: 0 <= i <= |before| ==> RowDone(before, after, table, i)
    ensures result == Rest(before, after, 0, 0)
  {
    result := [];
    var row, column := 0, 0;
    while row < |before| && column < |after|
      invariant 0 <= row <= |before| && 0 <= column <= |after|
      invariant result + Rest(before, after, row, column) == Rest(before, after, 0, 0)
      decreases |before| - row + |after| - column
    {
      var line, nextRow, nextColumn := WalkTurn(before, after, table, row, column);
      result, row, column := result + [line], nextRow, nextColumn;
    }
    var tail := WalkTail(before, after, row, column);
    result := result + tail;
  }

  /** The two closing loops: what is left of either text. */
  method WalkTail(before: seq<Text>, after: seq<Text>, row: nat, column: nat) returns (result: seq<DiffLine>)
    requires row <= |before| && column <= |after| && (row == |before| || column == |after|)
    ensures result == Rest(before, after, row, column)
  {
    var i, j := row, column;
    result := [];
    while i < |before|
      invariant row <= i <= |before| && (i == |before| || column == |after|)
      invariant result + Rest(before, after, i, j) == Rest(before, after, row, column)
    {
      RestStep(before, after, i, j);
      result, i := result + [Delete(before[i])], i + 1;
    }
    while j < |after|
      invariant column <= j <= |after|
      invariant result + Rest(before, after, i, j) == Rest(before, after, row, column)
    {
      RestStep(before, after, i, j);
      result, j := result + [Add(after[j])], j + 1;
    }
    RestStep(before, after, i, j);
  }

  method TrimPrefix(before: seq<Text>, after: seq<Text>) returns (prefix: nat)
    ensures prefix == CommonPrefix(before, after)
  {
    prefix := 0;
    while prefix < |before| && prefix < |after| && before[prefix] == after[prefix]
      invariant 0 <= prefix <= |before| && prefix <= |after|
      invariant CommonPrefix(before, after) == CommonPrefix(before, after, prefix)
    {
      prefix := prefix + 1;
    }
  }

  /** Steps both ends back over equal lines, never past the prefix; what is left ends at the results. */
  method TrimSuffix(before: seq<Text>, after: seq<Text>, prefix: nat) returns (beforeEnd: nat, afterEnd: nat)
    requires prefix <= |before| && prefix <= |after|
    ensures var s := CommonSuffix(before[prefix..], after[prefix..]);
            beforeEnd == |before| - s && afterEnd == |after| - s
  {
    ghost var u, v := before[prefix..], after[prefix..];
    ghost var trimmed: nat := 0;
    beforeEnd, afterEnd := |before|, |after|;
    while beforeEnd > prefix && afterEnd > prefix && before[beforeEnd - 1] == after[afterEnd - 1]
      invariant trimmed <= |u| && trimmed <= |v|
      invariant beforeEnd == |before| - trimmed && afterEnd == |after| - trimmed
      invariant CommonSuffix(u, v) == CommonSuffix(u, v, trimmed)
      decreases beforeEnd
    {
      beforeEnd, afterEnd, trimmed := beforeEnd - 1, afterEnd - 1, trimmed + 1;
    }
  }

  method PushDeletes(lines: seq<Text>, from: nat, to: nat) returns (result: seq<DiffLine>)
    requires from <= to <= |lines|
    ensures result == Deletes(lines[from..to])
  {
    result := [];
    for index := from to to
      invariant result == Deletes(lines[from..index])
    {
      result := result + [Delete(lines[index])];
    }
  }

  method PushAdds(lines: seq<Text>, from: nat, to: nat) returns (result: seq<DiffLine>)
    requires from <= to <= |lines|
    ensures result == Adds(lines[from..to])
  {
    result := [];
    for index := from to to
      invariant result == Adds(lines[from..index])
    {
      result := result + [Add(lines[index])];
    }
  }

  method CreatePrefixSuffixLineDiff(before: seq<Text>, after: seq<Text>) returns (result: seq<DiffLine>)
    ensures result == Fallback(before, after)
  {
    var prefix := TrimPrefix(before, after);
    var beforeEnd, afterEnd := TrimSuffix(before, after, prefix);
    SharedEnds(before, after);
    var gone := PushDeletes(before, prefix, beforeEnd);
    var came := PushAdds(after, prefix, afterEnd);
    result := gone + came;
  }

  function LineScript(before: seq<Text>, after: seq<Text>): seq<DiffLine> {
    if |before| * |after| > TABLE_LIMIT then Fallback(before, after) else Walk(before, after)
  }

  lemma ScriptIsOfLines(a: seq<Text>, b: seq<Text>)
    requires AreLines(a) && AreLines(b)
    ensures AreLines(Before(LineScript(a, b))) && AreLines(After(LineScript(a, b)))
  {
    if |a| * |b| > TABLE_LIMIT {
      FallbackReplays(a, b);
    } else {
      WalkReplays(a, b);
    }
  }

  /** The script of two texts is made of their lines. */
  lemma ScriptOfLines(before: string, after: string)
    ensures var script := LineScript(Split(before), Split(after));
            forall k :: 0 <= k < |script| ==> '\n' !in script[k].text
  {
    SplitGivesLines(before);
    SplitGivesLines(after);
    ScriptIsOfLines(Split(before), Split(after));
    EntriesAreLines(LineScript(Split(before), Split(after)));
  }

  /** In the table branch the two sides of the script join to the texts. */
  lemma ScriptJoins(before: string, after: string)
    requires |Split(before)| * |Split(after)| <= TABLE_LIMIT
    ensures var script := LineScript(Split(before), Split(after));
            && Before(script) != [] && Join(Before(script)) == before
            && After(script) != [] && Join(After(script)) == after
  {
    JoinSplit(before);
    JoinSplit(after);
    WalkReplays(Split(before), Split(after));
  }

  method CreateLineDiff(before: string, after: string) returns (result: seq<DiffLine>)
    ensures result == LineScript(Split(before), Split(after))
    ensures forall k :: 0 <= k < |result| ==> '\n' !in result[k].text
    ensures |Split(before)| * |Split(after)| <= TABLE_LIMIT ==>
              && Before(result) != [] && Join(Before(result)) == before
              && After(result) != [] && Join(After(result)) == after
  {
    ScriptOfLines(before, after);
    if |Split(before)| * |Split(after)| <= TABLE_LIMIT {
      ScriptJoins(before, after);
    }
    var beforeLines, afterLines := Split(before), Split(after);
    if |beforeLines| * |afterLines| > TABLE_LIMIT {
      result := CreatePrefixSuffixLineDiff(beforeLines, afterLines);
      return;
    }
    var table := FillTable(beforeLines, afterLines);
    result := WalkTable(beforeLines, afterLines, table);
    assert beforeLines[0..] == beforeLines && afterLines[0..] == afterLines;
  }

  /** The marks of a script, collected into an insertion-ordered set. */
  method CollectMarks(lines: seq<DiffLine>) returns (changed: seq<nat>)
    ensures IsChangedLines(lines, changed)
  {
    changed := [];
    var afterLine := 1;
    var i := 0;
    while i < |lines|
      invariant 0 <= i <= |lines| && afterLine >= 1
      invariant StrictlyIncreasing(changed) && (forall n :: n in changed ==> n <= afterLine)
      invariant forall n: nat :: n in Marks(lines, 1) <==> n in changed || n in Marks(lines[i..], afterLine)
    {
      assert lines[i..][1..] == lines[i + 1..];
      match lines[i] {
        case Context(_) =>
          afterLine := afterLine + 1;
        case Add(_) =>
          changed := Insert(changed, afterLine);
          afterLine := afterLine + 1;
        case Delete(_) =>
          changed := Insert(changed, if afterLine > 1 then afterLine else 1);
      }
      i := i + 1;
    }
    forall n: nat
      ensures n in changed <==> ChangeShowsAt(lines, n)
    {
      MarksShowChanges(lines, 1, n);
    }
  }

  method CreateChangedLineNumbers(before: string, after: string) returns (numbers: seq<nat>)
    ensures before == after ==> numbers == []
    ensures before != after ==> IsChangedLines(LineScript(Split(before), Split(after)), numbers)
    ensures |Split(before)| * |Split(after)| <= TABLE_LIMIT ==>
              && (numbers == [] <==> before == after)
              && (forall n: nat :: n in numbers ==> 1 <= n <= |Split(after)| + 1)
              && (before != after ==> forall n: nat :: 1 <= n <= |Split(after)| && n !in numbers ==>
                    KeptLine(Split(before), Split(after), n))
  {
    if before == after {
      return [];
    }
    var lines := CreateLineDiff(before, after);
    var changed := CollectMarks(lines);
    numbers := SortNumbers(changed);
    SortedStays(changed);
    SplitInjective(before, after);
    if |Split(before)| * |Split(after)| <= TABLE_LIMIT {
      ChangedLinesAreExact(Split(before), Split(after), numbers);
    }
  }

  lemma SplitInjective(before: string, after: string)
    ensures Split(before) == Split(after) <==> before == after
  {
    JoinSplit(before);
    JoinSplit(after);
  }

  /** Adding to an insertion-ordered set whose elements are at most `n`. */
  function Insert(numbers: seq<nat>, n: nat): (r: seq<nat>)
    requires StrictlyIncreasing(numbers) && forall m :: m in numbers ==> m <= n
    ensures StrictlyIncreasing(r) && (forall m :: m in r <==> m in numbers || m == n)
  {
    if n in numbers then numbers
    else
      assert forall i :: 0 <= i < |numbers| ==> numbers[i] in numbers;
      numbers + [n]
  }

  // The numeric sort of an array.
  function InsertSorted(numbers: seq<nat>, n: nat): seq<nat> {
    if numbers == [] || n < numbers[0] then [n] + numbers else [numbers[0]] + InsertSorted(numbers[1..], n)
  }

  function SortNumbers(numbers: seq<nat>): seq<nat> {
    if numbers == [] then [] else InsertSorted(SortNumbers(numbers[1..]), numbers[0])
  }

  lemma {:induction false} SortedStays(numbers: seq<nat>)
    requires StrictlyIncreasing(numbers)
    ensures SortNumbers(numbers) == numbers
  {
    if numbers != [] {
      SortedStays(numbers[1..]);
      assert numbers == [numbers[0]] + numbers[1..];
    }
  }
}

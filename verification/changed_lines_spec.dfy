// Which lines of the new text the editor marks as changed
// (createChangedLineNumbers in app/src/editor/codeMirrorWebViewEntry.ts).
module ChangedLinesSpec {
  import opened LineDiffSpec
  import opened Numbers

  // ---- Texts and lines ----

  /** text.split("\n") */
  function Split(text: string): (lines: seq<Text>)
    ensures |lines| > 0
  {
    if text == [] then [""]
    else
      var rest := Split(text[1..]);
      if text[0] == '\n' then [""] + rest else [[text[0]] + rest[0]] + rest[1..]
  }

  function Join(lines: seq<Text>): (text: string)
    requires |lines| > 0
  {
    if |lines| == 1 then lines[0] else lines[0] + "\n" + Join(lines[1..])
  }

  lemma {:induction false} JoinSplit(text: string)
    ensures Join(Split(text)) == text
  {
    if text != [] {
      var rest := Split(text[1..]);
      JoinSplit(text[1..]);
      if text[0] == '\n' {
        assert Split(text)[1..] == rest;
      } else {
        assert Split(text)[1..] == rest[1..];
      }
    }
  }

  /** Lines hold no newline. */
  predicate AreLines(lines: seq<Text>) {
    forall i :: 0 <= i < |lines| ==> '\n' !in lines[i]
  }

  lemma {:induction false} SplitGivesLines(text: string)
    ensures AreLines(Split(text))
  {
    if text != [] {
      SplitGivesLines(text[1..]);
      var rest := Split(text[1..]);
      if text[0] == '\n' {
        assert Split(text)[1..] == rest;
      } else {
        assert Split(text)[1..] == rest[1..] && Split(text)[0] == [text[0]] + rest[0];
      }
    }
  }

  lemma {:induction false} SplitOneLine(line: Text)
    requires '\n' !in line
    ensures Split(line) == [line]
  {
    if line != [] {
      SplitOneLine(line[1..]);
      assert line == [line[0]] + line[1..];
    }
  }

  lemma {:induction false} SplitAtNewline(line: Text, rest: string)
    requires '\n' !in line
    ensures Split(line + "\n" + rest) == [line] + Split(rest)
  {
    var text := line + "\n" + rest;
    if line == [] {
      assert text[1..] == rest;
    } else {
      assert text[0] == line[0] && text[1..] == line[1..] + "\n" + rest;
      SplitAtNewline(line[1..], rest);
      assert line == [line[0]] + line[1..];
    }
  }

  /** Splitting finds the lines that were joined, all of them and no others. */
  lemma {:induction false} SplitJoin(lines: seq<Text>)
    requires |lines| > 0 && AreLines(lines)
    ensures Split(Join(lines)) == lines
  {
    if |lines| == 1 {
      SplitOneLine(lines[0]);
    } else {
      SplitJoin(lines[1..]);
      SplitAtNewline(lines[0], Join(lines[1..]));
      assert lines == [lines[0]] + lines[1..];
    }
  }

  /** Every entry of a script is a line of one of its two texts. */
  lemma {:induction false} EntriesAreFromTexts(script: seq<DiffLine>, k: nat)
    requires k < |script|
    ensures script[k].text in Before(script) || script[k].text in After(script)
  {
    if k > 0 {
      EntriesAreFromTexts(script[1..], k - 1);
    }
  }

  lemma EntriesAreLines(script: seq<DiffLine>)
    requires AreLines(Before(script)) && AreLines(After(script))
    ensures forall k :: 0 <= k < |script| ==> '\n' !in script[k].text
  {
    forall k | 0 <= k < |script|
      ensures '\n' !in script[k].text
    {
      EntriesAreFromTexts(script, k);
    }
  }

  // ---- Marks ----

  /** The line numbers marked while walking a script, the next line of the new text being `line`. */
  function Marks(script: seq<DiffLine>, line: nat): (marks: seq<nat>) {
    if script == [] then []
    else
      match script[0]
      case Context(_) => Marks(script[1..], line + 1)
      case Add(_) => [line] + Marks(script[1..], line + 1)
      case Delete(_) => [line] + Marks(script[1..], line)
  }

  predicate StrictlyIncreasing(numbers: seq<nat>) {
    forall i, j :: 0 <= i < j < |numbers| ==> numbers[i] < numbers[j]
  }

  /** Line `n` of the new text is where a change of the script shows: an added line, or the line after a deletion. */
  ghost predicate ChangeShowsAt(script: seq<DiffLine>, n: nat) {
    exists k :: 0 <= k < |script| && !script[k].Context? && |After(script[..k])| + 1 == n
  }

  lemma {:induction false} MarksShowChanges(script: seq<DiffLine>, line: nat, n: nat)
    ensures n in Marks(script, line) <==>
            exists k :: 0 <= k < |script| && !script[k].Context? && |After(script[..k])| + line == n
  {
    if script != [] {
      var rest := script[1..];
      var next := if script[0].Delete? then line else line + 1;
      MarksShowChanges(rest, next, n);
      if k :| 0 <= k < |script| && !script[k].Context? && |After(script[..k])| + line == n {
        if k > 0 {
          assert script[..k][1..] == rest[..k - 1] && rest[k - 1] == script[k];
        }
      }
      if n in Marks(rest, next) {
        var k :| 0 <= k < |rest| && !rest[k].Context? && |After(rest[..k])| + next == n;
        assert script[..k + 1][1..] == rest[..k] && script[k + 1] == rest[k];
      }
      if !script[0].Context? && n == line {
        assert script[..0] == [];
      }
    }
  }

  /** The array that the editor gets: the marks without repeats, in increasing order. */
  ghost predicate IsChangedLines(script: seq<DiffLine>, numbers: seq<nat>) {
    StrictlyIncreasing(numbers) && forall n: nat :: n in numbers <==> ChangeShowsAt(script, n)
  }

  // ---- Exactness in the table branch ----

  lemma {:induction false} AllContextMeansEqual(script: seq<DiffLine>)
    ensures (forall k :: 0 <= k < |script| ==> script[k].Context?) ==> Before(script) == After(script)
  {
    if script != [] {
      AllContextMeansEqual(script[1..]);
    }
  }

  lemma PrefixAfter(script: seq<DiffLine>, k: nat)
    requires k <= |script|
    ensures |After(script[..k])| <= |After(script)|
    ensures k < |script| && !script[k].Delete? ==>
              |After(script[..k])| < |After(script)| && After(script)[|After(script[..k])|] == script[k].text
    ensures k < |script| && !script[k].Add? ==>
              |Before(script[..k])| < |Before(script)| && Before(script)[|Before(script[..k])|] == script[k].text
  {
    ScriptConcat(script[..k], script[k..]);
    assert script == script[..k] + script[k..];
    if k < |script| {
      assert script[k..][0] == script[k];
    }
  }

  /** The entry of a script that emits the n-th line of the new text. */
  lemma {:induction false} EmittingEntry(script: seq<DiffLine>, n: nat) returns (k: nat)
    requires 1 <= n <= |After(script)|
    ensures k < |script| && !script[k].Delete? && |After(script[..k])| == n - 1
  {
    if !script[0].Delete? && n == 1 {
      assert script[..0] == [];
      k := 0;
    } else {
      var rest := script[1..];
      var j := EmittingEntry(rest, if script[0].Delete? then n else n - 1);
      k := j + 1;
      assert script[..k][1..] == rest[..j];
    }
  }

  lemma ListedInRange(before: seq<Text>, after: seq<Text>, n: nat)
    requires ChangeShowsAt(Walk(before, after), n)
    ensures 1 <= n <= |after| + 1
  {
    var script := Walk(before, after);
    WalkReplays(before, after);
    var k :| 0 <= k < |script| && !script[k].Context? && |After(script[..k])| + 1 == n;
    PrefixAfter(script, k);
  }

  lemma EqualShowsNothing(a: seq<Text>, n: nat)
    ensures !ChangeShowsAt(Walk(a, a), n)
  {
    WalkOfEqual(a);
  }

  lemma DifferentShowsSome(before: seq<Text>, after: seq<Text>) returns (n: nat)
    requires before != after
    ensures ChangeShowsAt(Walk(before, after), n)
  {
    var script := Walk(before, after);
    WalkReplays(before, after);
    AllContextMeansEqual(script);
    var k :| 0 <= k < |script| && !script[k].Context?;
    n := |After(script[..k])| + 1;
  }

  lemma NothingListedMeansEqual(before: seq<Text>, after: seq<Text>, numbers: seq<nat>)
    requires IsChangedLines(Walk(before, after), numbers)
    ensures numbers == [] <==> before == after
  {
    if before != after {
      var n := DifferentShowsSome(before, after);
      assert n in numbers;
    } else if numbers != [] {
      EqualShowsNothing(before, numbers[0]);
    }
  }

  lemma UnlistedIsKept(before: seq<Text>, after: seq<Text>, n: nat)
    requires 1 <= n <= |after| && !ChangeShowsAt(Walk(before, after), n)
    ensures KeptLine(before, after, n)
  {
    var script := Walk(before, after);
    WalkReplays(before, after);
    var k := EmittingEntry(script, n);
    assert script[k].Context?;
    PrefixAfter(script, k);
  }

  /** Listed numbers lie between 1 and one past the last line; the list is
      empty exactly for equal texts; and a line that is not listed is a context
      line: an entry of the script keeps it, unchanged, from the old text. */
  lemma ChangedLinesAreExact(before: seq<Text>, after: seq<Text>, numbers: seq<nat>)
    requires IsChangedLines(Walk(before, after), numbers)
    ensures forall n: nat :: n in numbers ==> 1 <= n <= |after| + 1
    ensures numbers == [] <==> before == after
    ensures forall n: nat :: 1 <= n <= |after| && n !in numbers ==> KeptLine(before, after, n)
  {
    NothingListedMeansEqual(before, after, numbers);
    forall n: nat | n in numbers
      ensures 1 <= n <= |after| + 1
    {
      ListedInRange(before, after, n);
    }
    forall n: nat | 1 <= n <= |after| && n !in numbers
      ensures KeptLine(before, after, n)
    {
      UnlistedIsKept(before, after, n);
    }
  }

  /** Line `n` of the new text is kept by a context entry of the script, which finds it in the old text. */
  ghost predicate KeptLine(before: seq<Text>, after: seq<Text>, n: nat)
    requires 1 <= n <= |after|
  {
    var script := Walk(before, after);
    exists k :: 0 <= k < |script| && script[k].Context? && |After(script[..k])| == n - 1
      && |Before(script[..k])| < |before| && before[|Before(script[..k])|] == after[n - 1]
  }

  lemma {:induction false} WalkOfEqual(a: seq<Text>)
    ensures forall k :: 0 <= k < |Walk(a, a)| ==> Walk(a, a)[k].Context?
  {
    if a != [] {
      WalkOfEqual(a[1..]);
    }
  }

  // ---- The fallback branch counts from its own start ----

  /** For large inputs the marked lines are always 1, 2, ..., whatever the
      length of the common prefix that the fallback left out: the changed
      lines are really those numbers shifted by that prefix, so the marks are
      right exactly when the texts already differ in their first line. */
  lemma FallbackMarksIgnorePrefix(before: seq<Text>, after: seq<Text>, numbers: seq<nat>)
    requires before != after && IsChangedLines(Fallback(before, after), numbers)
    ensures var p, count := CommonPrefix(before, after), Max(1, |Middle(after, before)|);
            && IsInterval(numbers, 1, count)
            && (IsInterval(numbers, p + 1, p + count) <==> p == 0)
  {
    SomethingIsLeft(before, after);
    FallbackMarks(Middle(before, after), Middle(after, before), CommonPrefix(before, after), numbers);
  }

  lemma FallbackMarks(gone: seq<Text>, came: seq<Text>, p: nat, numbers: seq<nat>)
    requires gone != [] || came != []
    requires IsChangedLines(Deletes(gone) + Adds(came), numbers)
    ensures var count := Max(1, |came|);
            IsInterval(numbers, 1, count) && (IsInterval(numbers, p + 1, p + count) <==> p == 0)
  {
    FallbackInterval(gone, came, numbers);
    ShiftedInterval(numbers, Max(1, |came|), p);
  }

  lemma SomethingIsLeft(before: seq<Text>, after: seq<Text>)
    requires before != after
    ensures Middle(before, after) != [] || Middle(after, before) != []
  {
    FallbackTrims(before, after);
    FallbackReplays(before, after);
  }

  lemma FallbackInterval(gone: seq<Text>, came: seq<Text>, numbers: seq<nat>)
    requires gone != [] || came != []
    requires IsChangedLines(Deletes(gone) + Adds(came), numbers)
    ensures IsInterval(numbers, 1, Max(1, |came|))
  {
    forall n: nat
      ensures n in numbers <==> 1 <= n <= Max(1, |came|)
    {
      FallbackShows(gone, came, n);
    }
  }

  predicate IsInterval(numbers: seq<nat>, low: nat, high: nat) {
    (forall n :: n in numbers ==> low <= n <= high) && (forall n :: low <= n <= high ==> n in numbers)
  }

  lemma ShiftedInterval(numbers: seq<nat>, count: nat, p: nat)
    requires count >= 1 && IsInterval(numbers, 1, count)
    ensures IsInterval(numbers, p + 1, p + count) <==> p == 0
  {
    assert 1 in numbers;
  }

  lemma FallbackShows(gone: seq<Text>, came: seq<Text>, n: nat)
    requires gone != [] || came != []
    ensures ChangeShowsAt(Deletes(gone) + Adds(came), n) <==> 1 <= n <= Max(1, |came|)
  {
    var script := Deletes(gone) + Adds(came);
    if ChangeShowsAt(script, n) {
      var k :| 0 <= k < |script| && !script[k].Context? && |After(script[..k])| + 1 == n;
      FallbackAfter(gone, came, k);
    }
    if 1 <= n <= Max(1, |came|) {
      var k := if came == [] then 0 else |gone| + n - 1;
      FallbackAfter(gone, came, k);
      assert !script[k].Context? && |After(script[..k])| + 1 == n;
    }
  }

  lemma FallbackAfter(gone: seq<Text>, came: seq<Text>, k: nat)
    requires k <= |gone| + |came|
    ensures |After((Deletes(gone) + Adds(came))[..k])| == if k <= |gone| then 0 else k - |gone|
  {
    var script := Deletes(gone) + Adds(came);
    if k <= |gone| {
      assert script[..k] == Deletes(gone[..k]);
      OnlyDeletes(gone[..k]);
    } else {
      assert script[..k] == Deletes(gone) + Adds(came[..k - |gone|]);
      ScriptConcat(Deletes(gone), Adds(came[..k - |gone|]));
      OnlyDeletes(gone);
      OnlyAdds(came[..k - |gone|]);
    }
  }
}

// Line diffs as edit scripts (createLineDiff and createPrefixSuffixLineDiff
// in app/src/editor/codeMirrorWebViewEntry.ts).
module LineDiffSpec {
  import opened Numbers

  type Text = string

  datatype DiffLine = Context(text: Text) | Delete(text: Text) | Add(text: Text)

  // ---- What a script means ----

  /** The text a script starts from: its context and deleted lines. */
  function Before(script: seq<DiffLine>): (lines: seq<Text>) {
    if script == [] then []
    else (if script[0].Add? then [] else [script[0].text]) + Before(script[1..])
  }

  /** The text a script ends with: its context and added lines. */
  function After(script: seq<DiffLine>): (lines: seq<Text>) {
    if script == [] then []
    else (if script[0].Delete? then [] else [script[0].text]) + After(script[1..])
  }

  function Contexts(script: seq<DiffLine>): (n: nat) {
    if script == [] then 0 else (if script[0].Context? then 1 else 0) + Contexts(script[1..])
  }

  /** The number of added and deleted lines. */
  function Edits(script: seq<DiffLine>): (n: nat) {
    if script == [] then 0 else (if script[0].Context? then 0 else 1) + Edits(script[1..])
  }

  lemma {:induction false} BeforeConcat(s: seq<DiffLine>, t: seq<DiffLine>)
    ensures Before(s + t) == Before(s) + Before(t)
  {
    if s == [] {
      assert s + t == t;
    } else {
      assert (s + t)[1..] == s[1..] + t;
      BeforeConcat(s[1..], t);
    }
  }

  lemma {:induction false} AfterConcat(s: seq<DiffLine>, t: seq<DiffLine>)
    ensures After(s + t) == After(s) + After(t)
  {
    if s == [] {
      assert s + t == t;
    } else {
      assert (s + t)[1..] == s[1..] + t;
      AfterConcat(s[1..], t);
    }
  }

  lemma ScriptConcat(s: seq<DiffLine>, t: seq<DiffLine>)
    ensures Before(s + t) == Before(s) + Before(t)
    ensures After(s + t) == After(s) + After(t)
  {
    BeforeConcat(s, t);
    AfterConcat(s, t);
  }

  lemma {:induction false} EditsAreTheRest(script: seq<DiffLine>)
    ensures |Before(script)| + |After(script)| == 2 * Contexts(script) + Edits(script)
  {
    if script != [] {
      EditsAreTheRest(script[1..]);
    }
  }

  // ---- Longest common subsequences ----

  function Lcs(a: seq<Text>, b: seq<Text>): (n: nat)
    decreases |a| + |b|
  {
    if a == [] || b == [] then 0
    else if a[0] == b[0] then Lcs(a[1..], b[1..]) + 1
    else Max(Lcs(a[1..], b), Lcs(a, b[1..]))
  }

  /** Dropping a first line loses at most one common line and gains none. */
  lemma {:induction false} LcsDropsAtMostOne(a: seq<Text>, b: seq<Text>)
    ensures a != [] ==> Lcs(a[1..], b) <= Lcs(a, b) <= Lcs(a[1..], b) + 1
    ensures b != [] ==> Lcs(a, b[1..]) <= Lcs(a, b) <= Lcs(a, b[1..]) + 1
    decreases |a| + |b|
  {
    if a != [] && b != [] {
      LcsDropsAtMostOne(a[1..], b);
      LcsDropsAtMostOne(a, b[1..]);
    }
  }

  /** No script between two texts keeps more lines than their longest common subsequence. */
  lemma {:induction false} NoScriptKeepsMore(script: seq<DiffLine>)
    ensures Contexts(script) <= Lcs(Before(script), After(script))
  {
    if script != [] {
      var rest := script[1..];
      NoScriptKeepsMore(rest);
      var a, b := Before(script), After(script);
      LcsDropsAtMostOne(a, b);
      match script[0]
      case Context(t) =>
        assert a[1..] == Before(rest) && b[1..] == After(rest);
      case Delete(t) =>
        assert a[1..] == Before(rest) && b == After(rest);
      case Add(t) =>
        assert a == Before(rest) && b[1..] == After(rest);
    }
  }

  predicate Subsequence(s: seq<Text>, a: seq<Text>)
    decreases |a|
  {
    s == [] || (a != [] && ((s[0] == a[0] && Subsequence(s[1..], a[1..])) || Subsequence(s, a[1..])))
  }

  /** `Lcs` bounds every common subsequence, however it is found. */
  lemma {:induction false} CommonSubsequenceBound(s: seq<Text>, a: seq<Text>, b: seq<Text>)
    requires Subsequence(s, a) && Subsequence(s, b)
    ensures |s| <= Lcs(a, b)
    decreases |a| + |b|
  {
    if s != [] {
      LcsDropsAtMostOne(a, b);
      if Subsequence(s, a[1..]) {
        CommonSubsequenceBound(s, a[1..], b);
      } else if Subsequence(s, b[1..]) {
        CommonSubsequenceBound(s, a, b[1..]);
      } else {
        CommonSubsequenceBound(s[1..], a[1..], b[1..]);
      }
    }
  }

  function ContextTexts(script: seq<DiffLine>): (lines: seq<Text>) {
    if script == [] then []
    else (if script[0].Context? then [script[0].text] else []) + ContextTexts(script[1..])
  }

  lemma {:induction false} SubsequenceSkips(s: seq<Text>, a: seq<Text>, x: seq<Text>)
    requires Subsequence(s, a) && |x| <= 1
    ensures Subsequence(s, x + a)
    ensures Subsequence(x + s, x + a)
  {
    if x == [] {
      assert x + a == a && x + s == s;
    } else {
      assert (x + a)[1..] == a && (x + s)[1..] == s;
    }
  }

  lemma {:induction false} ContextsAreCommon(script: seq<DiffLine>)
    ensures |ContextTexts(script)| == Contexts(script)
    ensures Subsequence(ContextTexts(script), Before(script)) && Subsequence(ContextTexts(script), After(script))
  {
    if script != [] {
      var rest := script[1..];
      ContextsAreCommon(rest);
      var x := [script[0].text];
      var none: seq<Text> := [];
      assert none + Before(rest) == Before(rest) && none + After(rest) == After(rest);
      assert none + ContextTexts(rest) == ContextTexts(rest);
      SubsequenceSkips(ContextTexts(rest), Before(rest), x);
      SubsequenceSkips(ContextTexts(rest), After(rest), x);
    }
  }

  // ---- The table branch ----

  /** The greedy walk over the table of longest common subsequences. */
  function Walk(a: seq<Text>, b: seq<Text>): (script: seq<DiffLine>)
    decreases |a| + |b|
  {
    if a == [] && b == [] then []
    else if b == [] then [Delete(a[0])] + Walk(a[1..], b)
    else if a == [] then [Add(b[0])] + Walk(a, b[1..])
    else if a[0] == b[0] then [Context(a[0])] + Walk(a[1..], b[1..])
    else if Lcs(a[1..], b) >= Lcs(a, b[1..]) then [Delete(a[0])] + Walk(a[1..], b)
    else [Add(b[0])] + Walk(a, b[1..])
  }

  /** The walk leads from the first text to the second and keeps a longest common subsequence. */
  lemma {:induction false} WalkReplays(a: seq<Text>, b: seq<Text>)
    ensures Before(Walk(a, b)) == a && After(Walk(a, b)) == b
    ensures Contexts(Walk(a, b)) == Lcs(a, b)
    decreases |a| + |b|
  {
    var script := Walk(a, b);
    if a == [] && b == [] {
      // both texts are used up: the script is empty
    } else if b == [] {
      WalkReplays(a[1..], b);
      assert script[1..] == Walk(a[1..], b);
    } else if a == [] {
      WalkReplays(a, b[1..]);
      assert script[1..] == Walk(a, b[1..]);
    } else if a[0] == b[0] {
      WalkReplays(a[1..], b[1..]);
      assert script[1..] == Walk(a[1..], b[1..]);
    } else if Lcs(a[1..], b) >= Lcs(a, b[1..]) {
      WalkReplays(a[1..], b);
      assert script[1..] == Walk(a[1..], b);
    } else {
      WalkReplays(a, b[1..]);
      assert script[1..] == Walk(a, b[1..]);
    }
  }

  /** Within a change, deleted lines come before added ones: no line is deleted right behind an added one. */
  lemma {:induction false} DeletesComeFirst(a: seq<Text>, b: seq<Text>)
    ensures forall i :: 0 <= i < |Walk(a, b)| - 1 && Walk(a, b)[i].Add? ==> !Walk(a, b)[i + 1].Delete?
    decreases |a| + |b|
  {
    if a != [] || b != [] {
      var first := Walk(a, b)[0];
      var x := if first.Add? then a else a[1..];
      var y := if first.Delete? then b else b[1..];
      var later := Walk(x, y);
      assert Walk(a, b) == [first] + later;
      DeletesComeFirst(x, y);
      if first.Add? && a != [] && later != [] && later[0].Delete? {
        LcsDropsAtMostOne(a[1..], b);
        assert false;
      }
    }
  }

  /** The context lines of the walk are a common subsequence of the two texts, and none is longer. */
  lemma WalkKeepsLongest(a: seq<Text>, b: seq<Text>, s: seq<Text>)
    requires Subsequence(s, a) && Subsequence(s, b)
    ensures Subsequence(ContextTexts(Walk(a, b)), a) && Subsequence(ContextTexts(Walk(a, b)), b)
    ensures |s| <= |ContextTexts(Walk(a, b))|
  {
    WalkReplays(a, b);
    ContextsAreCommon(Walk(a, b));
    CommonSubsequenceBound(s, a, b);
  }

  /** Optimality: no script from one text to the other has fewer added and deleted lines. */
  lemma WalkIsMinimal(a: seq<Text>, b: seq<Text>, script: seq<DiffLine>)
    requires Before(script) == a && After(script) == b
    ensures Edits(Walk(a, b)) <= Edits(script)
  {
    WalkReplays(a, b);
    NoScriptKeepsMore(script);
    EditsAreTheRest(script);
    EditsAreTheRest(Walk(a, b));
  }

  // ---- The fallback for large inputs ----

  /** The length of the common prefix, given that the first `n` lines agree. */
  function CommonPrefix(a: seq<Text>, b: seq<Text>, n: nat := 0): (r: nat)
    requires n <= |a| && n <= |b|
    ensures n <= r <= |a| && r <= |b| && a[n..r] == b[n..r]
    ensures r < |a| && r < |b| ==> a[r] != b[r]
    decreases |a| - n
  {
    if n < |a| && n < |b| && a[n] == b[n] then
      var r := CommonPrefix(a, b, n + 1);
      assert a[n..r] == [a[n]] + a[n + 1..r] && b[n..r] == [b[n]] + b[n + 1..r];
      r
    else n
  }

  /** The length of the common suffix, given that the last `n` lines agree. */
  function CommonSuffix(a: seq<Text>, b: seq<Text>, n: nat := 0): (r: nat)
    requires n <= |a| && n <= |b|
    ensures n <= r <= |a| && r <= |b|
    ensures r < |a| && r < |b| ==> a[|a| - r - 1] != b[|b| - r - 1]
    decreases |a| - n
  {
    if n < |a| && n < |b| && a[|a| - n - 1] == b[|b| - n - 1] then CommonSuffix(a, b, n + 1) else n
  }

  function LastLines(a: seq<Text>, n: nat): (lines: seq<Text>)
    requires n <= |a|
  {
    a[|a| - n..]
  }

  lemma SuffixGrows(a: seq<Text>, b: seq<Text>, n: nat)
    requires n < |a| && n < |b| && a[|a| - n - 1] == b[|b| - n - 1]
    requires LastLines(a, n) == LastLines(b, n)
    ensures LastLines(a, n + 1) == LastLines(b, n + 1)
  {
    assert LastLines(a, n + 1) == [a[|a| - n - 1]] + LastLines(a, n);
    assert LastLines(b, n + 1) == [b[|b| - n - 1]] + LastLines(b, n);
  }

  lemma {:induction false} SuffixAgrees(a: seq<Text>, b: seq<Text>, n: nat)
    requires n <= |a| && n <= |b| && LastLines(a, n) == LastLines(b, n)
    ensures LastLines(a, CommonSuffix(a, b, n)) == LastLines(b, CommonSuffix(a, b, n))
    decreases |a| - n
  {
    if n < |a| && n < |b| && a[|a| - n - 1] == b[|b| - n - 1] {
      SuffixGrows(a, b, n);
      SuffixAgrees(a, b, n + 1);
    }
  }

  function Deletes(lines: seq<Text>): (script: seq<DiffLine>)
    ensures |script| == |lines| && forall i :: 0 <= i < |lines| ==> script[i] == Delete(lines[i])
  {
    seq(|lines|, i requires 0 <= i < |lines| => Delete(lines[i]))
  }

  function Adds(lines: seq<Text>): (script: seq<DiffLine>)
    ensures |script| == |lines| && forall i :: 0 <= i < |lines| ==> script[i] == Add(lines[i])
  {
    seq(|lines|, i requires 0 <= i < |lines| => Add(lines[i]))
  }

  /** The common suffix of what follows the common prefix. */
  function Suffix(a: seq<Text>, b: seq<Text>): (s: nat)
    ensures CommonPrefix(a, b) + s <= |a| && CommonPrefix(a, b) + s <= |b|
  {
    CommonSuffix(a[CommonPrefix(a, b)..], b[CommonPrefix(a, b)..])
  }

  /** What is left of a text between the common prefix and the common suffix. */
  function Middle(a: seq<Text>, b: seq<Text>): (middle: seq<Text>) {
    a[CommonPrefix(a, b)..|a| - Suffix(a, b)]
  }

  function Fallback(a: seq<Text>, b: seq<Text>): (script: seq<DiffLine>) {
    Deletes(Middle(a, b)) + Adds(Middle(b, a))
  }

  lemma {:induction false} CommonPrefixSymmetric(a: seq<Text>, b: seq<Text>, n: nat)
    requires n <= |a| && n <= |b|
    ensures CommonPrefix(a, b, n) == CommonPrefix(b, a, n)
    decreases |a| - n
  {
    if n < |a| && n < |b| && a[n] == b[n] {
      CommonPrefixSymmetric(a, b, n + 1);
    }
  }

  lemma {:induction false} CommonSuffixSymmetric(a: seq<Text>, b: seq<Text>, n: nat)
    requires n <= |a| && n <= |b|
    ensures CommonSuffix(a, b, n) == CommonSuffix(b, a, n)
    decreases |a| - n
  {
    if n < |a| && n < |b| && a[|a| - n - 1] == b[|b| - n - 1] {
      CommonSuffixSymmetric(a, b, n + 1);
    }
  }

  lemma {:induction false} OnlyDeletes(lines: seq<Text>)
    ensures Before(Deletes(lines)) == lines && After(Deletes(lines)) == []
  {
    if lines != [] {
      OnlyDeletes(lines[1..]);
      assert Deletes(lines)[1..] == Deletes(lines[1..]);
    }
  }

  lemma {:induction false} OnlyAdds(lines: seq<Text>)
    ensures Before(Adds(lines)) == [] && After(Adds(lines)) == lines
  {
    if lines != [] {
      OnlyAdds(lines[1..]);
      assert Adds(lines)[1..] == Adds(lines[1..]);
    }
  }

  /** A text in three pieces. */
  lemma Rebuilds(a: seq<Text>, b: seq<Text>)
    ensures a == a[..CommonPrefix(a, b)] + Middle(a, b) + a[|a| - Suffix(a, b)..]
  {
    var p, s := CommonPrefix(a, b), Suffix(a, b);
    assert a == a[..p] + a[p..|a| - s] + a[|a| - s..];
  }

  lemma TailOfDrop(a: seq<Text>, p: nat, s: nat)
    requires p + s <= |a|
    ensures LastLines(a[p..], s) == LastLines(a, s)
  {
    var rest := a[p..];
    assert |LastLines(rest, s)| == |LastLines(a, s)|;
    forall i | 0 <= i < s
      ensures LastLines(rest, s)[i] == LastLines(a, s)[i]
    {
      assert rest[|rest| - s + i] == a[|a| - s + i];
    }
  }

  /** Both texts share the prefix and the suffix around their middles. */
  lemma SharedEnds(a: seq<Text>, b: seq<Text>)
    ensures CommonPrefix(b, a) == CommonPrefix(a, b) && Suffix(b, a) == Suffix(a, b)
    ensures a[..CommonPrefix(a, b)] == b[..CommonPrefix(a, b)]
    ensures a[|a| - Suffix(a, b)..] == b[|b| - Suffix(a, b)..]
  {
    SharedPrefix(a, b, CommonPrefix(a, b));
    CommonSuffixSymmetric(a[CommonPrefix(a, b)..], b[CommonPrefix(a, b)..], 0);
    SameLastLines(a[CommonPrefix(a, b)..], b[CommonPrefix(a, b)..]);
    SharedSuffix(a, b, CommonPrefix(a, b), Suffix(a, b));
  }

  lemma SharedPrefix(a: seq<Text>, b: seq<Text>, p: nat)
    requires p == CommonPrefix(a, b)
    ensures CommonPrefix(b, a) == p && a[..p] == b[..p]
  {
    CommonPrefixSymmetric(a, b, 0);
    assert a[..p] == a[0..p] && b[..p] == b[0..p];
  }

  lemma SameLastLines(a: seq<Text>, b: seq<Text>)
    ensures LastLines(a, CommonSuffix(a, b)) == LastLines(b, CommonSuffix(a, b))
  {
    assert LastLines(a, 0) == [] && LastLines(b, 0) == [];
    SuffixAgrees(a, b, 0);
  }

  lemma SharedSuffix(a: seq<Text>, b: seq<Text>, p: nat, s: nat)
    requires p + s <= |a| && p + s <= |b| && LastLines(a[p..], s) == LastLines(b[p..], s)
    ensures a[|a| - s..] == b[|b| - s..]
  {
    TailOfDrop(a, p, s);
    TailOfDrop(b, p, s);
    assert LastLines(a, s) == LastLines(b, s);
  }

  lemma MiddleEndsDiffer(a: seq<Text>, b: seq<Text>)
    requires Middle(a, b) != [] && Middle(b, a) != []
    ensures Middle(a, b)[0] != Middle(b, a)[0]
    ensures Middle(a, b)[|Middle(a, b)| - 1] != Middle(b, a)[|Middle(b, a)| - 1]
  {
    SharedEnds(a, b);
    var p, s := CommonPrefix(a, b), Suffix(a, b);
    assert a[p..][|a| - p - s - 1] == a[|a| - s - 1] && b[p..][|b| - p - s - 1] == b[|b| - s - 1];
  }

  lemma FallbackReplays(a: seq<Text>, b: seq<Text>)
    ensures Before(Fallback(a, b)) == Middle(a, b) && After(Fallback(a, b)) == Middle(b, a)
  {
    ScriptConcat(Deletes(Middle(a, b)), Adds(Middle(b, a)));
    OnlyDeletes(Middle(a, b));
    OnlyAdds(Middle(b, a));
  }

  /** The fallback, put between a common prefix and a common suffix, rebuilds
      both texts, and no equal line is left to trim at either end. */
  lemma FallbackTrims(a: seq<Text>, b: seq<Text>)
    ensures var p, s, gone, came := CommonPrefix(a, b), Suffix(a, b), Before(Fallback(a, b)), After(Fallback(a, b));
            && a == a[..p] + gone + a[|a| - s..]
            && b == a[..p] + came + a[|a| - s..]
            && (gone != [] && came != [] ==> gone[0] != came[0] && gone[|gone| - 1] != came[|came| - 1])
  {
    FallbackReplays(a, b);
    SharedEnds(a, b);
    Rebuilds(a, b);
    Rebuilds(b, a);
    if Middle(a, b) != [] && Middle(b, a) != [] {
      MiddleEndsDiffer(a, b);
    }
  }
}

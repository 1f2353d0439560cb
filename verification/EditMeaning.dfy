/** Bottom-up editing against the meaning of a `TextEdit[]` in LSP 3.17: where they agree, and
    exactly where they do not. */
module EditMeaning {
  import opened Lines
  import opened TextEdits
  import opened TextEditArrays
  import opened BottomUp

  // ----- what the simultaneous meaning depends on

  predicate SameCoverage(fs: seq<FlatEdit>, gs: seq<FlatEdit>, length: nat) {
    forall i :: 0 <= i <= length ==> Covered(fs, i) == Covered(gs, i)
  }

  predicate SameInserted(fs: seq<FlatEdit>, gs: seq<FlatEdit>, length: nat) {
    forall i :: 0 <= i <= length ==> Inserted(fs, i) == Inserted(gs, i)
  }

  predicate NoLonger(fs: seq<FlatEdit>, gs: seq<FlatEdit>, length: nat) {
    forall i :: 0 <= i <= length ==> |Inserted(fs, i)| <= |Inserted(gs, i)|
  }

  lemma {:induction false} SameSimultaneous(s: string, fs: seq<FlatEdit>, gs: seq<FlatEdit>, i: nat)
    requires i <= |s| && SameCoverage(fs, gs, |s|) && SameInserted(fs, gs, |s|)
    ensures Simultaneous(s, fs, i) == Simultaneous(s, gs, i)
    decreases |s| - i
  {
    if i < |s| {
      SameSimultaneous(s, fs, gs, i + 1);
    }
  }

  lemma {:induction false} ShorterSimultaneous(s: string, fs: seq<FlatEdit>, gs: seq<FlatEdit>, i: nat)
    requires i <= |s| && SameCoverage(fs, gs, |s|) && NoLonger(fs, gs, |s|)
    ensures |Simultaneous(s, fs, i)| <= |Simultaneous(s, gs, i)|
    ensures |Rest(s, fs, i)| <= |Rest(s, gs, i)|
    decreases |s| - i
  {
    if i < |s| {
      ShorterSimultaneous(s, fs, gs, i + 1);
    }
  }

  /** If one array never inserts more than the other, equal results mean equal insertions. */
  lemma {:induction false} SimultaneousDetermines(s: string, fs: seq<FlatEdit>, gs: seq<FlatEdit>, i: nat, j: nat)
    requires i <= j <= |s| && SameCoverage(fs, gs, |s|) && NoLonger(fs, gs, |s|)
    requires Simultaneous(s, fs, i) == Simultaneous(s, gs, i)
    ensures Inserted(fs, j) == Inserted(gs, j)
    decreases |s| - i
  {
    ShorterSimultaneous(s, fs, gs, i);
    SameHead(Inserted(fs, i), Rest(s, fs, i), Inserted(gs, i), Rest(s, gs, i));
    if i < j {
      var kept := if Covered(fs, i) then "" else [s[i]];
      SameHead(kept, Simultaneous(s, fs, i + 1), kept, Simultaneous(s, gs, i + 1));
      SimultaneousDetermines(s, fs, gs, i + 1, j);
    }
  }

  lemma SimultaneousIff(s: string, fs: seq<FlatEdit>, gs: seq<FlatEdit>)
    requires SameCoverage(fs, gs, |s|) && NoLonger(fs, gs, |s|)
    ensures Simultaneous(s, fs, 0) == Simultaneous(s, gs, 0) <==> SameInserted(fs, gs, |s|)
  {
    if Simultaneous(s, fs, 0) == Simultaneous(s, gs, 0) {
      forall i | 0 <= i <= |s| ensures Inserted(fs, i) == Inserted(gs, i) {
        SimultaneousDetermines(s, fs, gs, 0, i);
      }
    }
    if SameInserted(fs, gs, |s|) {
      SameSimultaneous(s, fs, gs, 0);
    }
  }

  // ----- merging changes neither what is covered nor lengthens what is inserted

  lemma {:induction false} MergeKeepsRange(lines: seq<string>, es: seq<TextEdit>, j: nat)
    requires j < |es| && !Insertion(es[j])
    ensures exists k :: 0 <= k < |Merge(lines, es)| && Merge(lines, es)[k].range == es[j].range
  {
    var m, all := Merge(lines, es[..|es| - 1]), Merge(lines, es);
    if j == |es| - 1 {
      assert all[|all| - 1].range == es[j].range;
    } else {
      MergeKeepsRange(lines, es[..|es| - 1], j);
      var k :| 0 <= k < |m| && m[k].range == es[..|es| - 1][j].range;
      assert k == |all| - 1 || all[k] == m[k];
      assert all[k].range == es[j].range;
    }
  }

  lemma CoverageFromRanges(lines: seq<string>, a: seq<TextEdit>, b: seq<TextEdit>, i: nat)
    requires forall j :: 0 <= j < |a| && !Insertion(a[j]) ==> exists k :: 0 <= k < |b| && b[k].range == a[j].range
    ensures Covered(FlatArray(lines, a), i) ==> Covered(FlatArray(lines, b), i)
  {
    var fs, gs := FlatArray(lines, a), FlatArray(lines, b);
    CoveredByOne(fs, i);
    CoveredByOne(gs, i);
    if j :| 0 <= j < |fs| && fs[j].start <= i < fs[j].end {
      var k :| 0 <= k < |b| && b[k].range == a[j].range;
      assert gs[k].start <= i < gs[k].end;
    }
  }

  function Merged(lines: seq<string>, es: seq<TextEdit>): seq<TextEdit> {
    Merge(lines, SortDescending(es))
  }

  lemma MergedCoverage(lines: seq<string>, es: seq<TextEdit>, length: nat)
    requires Legal(lines, es)
    ensures SameCoverage(FlatArray(lines, Merged(lines, es)), FlatArray(lines, es), length)
  {
    var sorted, m := SortDescending(es), Merged(lines, es);
    SortKeeps(lines, true, es);
    MergeSeparates(lines, sorted);
    forall k | 0 <= k < |m| ensures exists j :: 0 <= j < |es| && es[j].range == m[k].range {
      var i :| 0 <= i < |sorted| && sorted[i].range == m[k].range;
      assert sorted[i] in sorted;
      var j :| 0 <= j < |es| && es[j] == sorted[i];
    }
    forall j | 0 <= j < |es| && !Insertion(es[j]) ensures exists k :: 0 <= k < |m| && m[k].range == es[j].range {
      assert es[j] in sorted;
      var i :| 0 <= i < |sorted| && sorted[i] == es[j];
      MergeKeepsRange(lines, sorted, i);
    }
    forall i | 0 <= i <= length
      ensures Covered(FlatArray(lines, m), i) == Covered(FlatArray(lines, es), i)
    {
      CoverageFromRanges(lines, m, es, i);
      CoverageFromRanges(lines, es, m, i);
    }
  }

  lemma {:induction false} GroupTextNoLonger(lines: seq<string>, es: seq<TextEdit>, i: nat, w: string)
    ensures |GroupText(lines, es, i, w)| <= |w| + |Inserted(FlatArray(lines, es), i)|
    decreases |es|
  {
    if es != [] {
      assert es == [es[0]] + es[1..];
      InsertedFirst(lines, es[0], es[1..], i);
      GroupTextNoLonger(lines, es[1..], i,
        if Offset(lines, es[0].range.start) == i then Absorbed(lines, w, es[0]) else w);
    }
  }

  lemma MergedInserts(lines: seq<string>, es: seq<TextEdit>, i: nat)
    requires Legal(lines, es)
    ensures Inserted(FlatArray(lines, Merged(lines, es)), i) == GroupText(lines, es, i, "")
  {
    SortKeeps(lines, true, es);
    MergedText(lines, SortDescending(es), i);
    GroupTextSort(lines, es, i, "");
  }

  // ----- main results

  /** For every legal array, in any order, bottom-up editing is the simultaneous replacement of the
      array in which the edits sharing a start are merged. */
  lemma EditedIsMerged(content: string, es: seq<TextEdit>)
    requires Legal(Split(content, NEWLINE), es)
    ensures var lines := Split(content, NEWLINE);
            Edited(content, es) == Simultaneous(content, FlatArray(lines, Merged(lines, es)), 0)
  {
    var lines := Split(content, NEWLINE);
    var sorted, m := SortDescending(es), Merged(lines, es);
    JoinSplit(content, NEWLINE);
    SortKeeps(lines, true, es);
    MergeKeepsResult(lines, sorted);
    MergeSeparates(lines, sorted);
    StrictlyDescendingIsDescending(lines, m);
    DescendingIsSimultaneous(lines, m);
    ReversedIsSame(content, lines, m);
  }

  lemma StrictlyDescendingStarts(lines: seq<string>, m: seq<TextEdit>)
    requires StrictlyDescending(lines, m)
    ensures DistinctStarts(FlatArray(lines, m))
  {
    var fs := FlatArray(lines, m);
    forall j, k | 0 <= j < k < |m| ensures fs[j].start != fs[k].start {
      assert Before(lines, m[k], m[j]);
    }
  }

  lemma SameCoverageReversed(fs: seq<FlatEdit>, rs: seq<FlatEdit>, length: nat)
    requires Mirrored(fs, rs) && Mirrored(rs, fs)
    ensures SameCoverage(rs, fs, length)
  {
    forall i | 0 <= i <= length ensures Covered(rs, i) == Covered(fs, i) {
      CoverageReversed(fs, rs, i);
      CoverageReversed(rs, fs, i);
    }
  }

  lemma MirroredIsSame(text: string, fs: seq<FlatEdit>, rs: seq<FlatEdit>)
    requires DistinctStarts(fs) && DistinctStarts(rs) && Mirrored(fs, rs) && Mirrored(rs, fs)
    ensures Simultaneous(text, rs, 0) == Simultaneous(text, fs, 0)
  {
    forall i | 0 <= i <= |text| ensures Inserted(rs, i) == Inserted(fs, i) {
      MirroredInserts(fs, rs, i);
    }
    SameCoverageReversed(fs, rs, |text|);
    SameSimultaneous(text, rs, fs, 0);
  }

  lemma ReversedIsSame(content: string, lines: seq<string>, m: seq<TextEdit>)
    requires StrictlyDescending(lines, m)
    ensures Simultaneous(content, FlatArray(lines, Reverse(m)), 0) == Simultaneous(content, FlatArray(lines, m), 0)
  {
    StrictlyDescendingStarts(lines, m);
    ReverseMirrors(lines, m);
    MirroredIsSame(content, FlatArray(lines, m), FlatArray(lines, Reverse(m)));
  }

  lemma CoverageReversed(fs: seq<FlatEdit>, rs: seq<FlatEdit>, i: nat)
    requires Mirrored(fs, rs)
    ensures Covered(fs, i) ==> Covered(rs, i)
  {
    CoveredByOne(fs, i);
    CoveredByOne(rs, i);
    if k :| 0 <= k < |fs| && fs[k].start <= i < fs[k].end {
      assert rs[|fs| - 1 - k].start <= i;
    }
  }

  /** At every offset, editing leaves the concatenation of the texts that start there. */
  predicate GroupsConcatenate(lines: seq<string>, es: seq<TextEdit>, length: nat) {
    forall i :: 0 <= i <= length ==> GroupText(lines, es, i, "") == Inserted(FlatArray(lines, es), i)
  }

  lemma MergedInsertsExactly(lines: seq<string>, es: seq<TextEdit>, length: nat)
    requires Legal(lines, es)
    ensures NoLonger(FlatArray(lines, Merged(lines, es)), FlatArray(lines, es), length)
    ensures SameInserted(FlatArray(lines, Merged(lines, es)), FlatArray(lines, es), length)
            <==> GroupsConcatenate(lines, es, length)
  {
    forall i: nat
      ensures Inserted(FlatArray(lines, Merged(lines, es)), i) == GroupText(lines, es, i, "")
      ensures |GroupText(lines, es, i, "")| <= |Inserted(FlatArray(lines, es), i)|
    {
      MergedInserts(lines, es, i);
      GroupTextNoLonger(lines, es, i, "");
    }
  }

  /** A legal array is applied with its LSP meaning exactly when, at every offset, what editing makes
      of the edits starting there is the concatenation of their texts. */
  lemma EditedIsSimultaneousExactly(content: string, es: seq<TextEdit>)
    requires Legal(Split(content, NEWLINE), es)
    ensures Edited(content, es) == Simultaneous(content, FlatArray(Split(content, NEWLINE), es), 0)
            <==> GroupsConcatenate(Split(content, NEWLINE), es, |content|)
  {
    var lines := Split(content, NEWLINE);
    EditedIsMerged(content, es);
    MergedCoverage(lines, es, |content|);
    MergedInsertsExactly(lines, es, |content|);
    SimultaneousIff(content, FlatArray(lines, Merged(lines, es)), FlatArray(lines, es));
  }

  /** Alone at its offset an edit puts there exactly its own text. */
  lemma {:induction false} GroupTextAlone(lines: seq<string>, es: seq<TextEdit>, i: nat, w: string)
    requires DistinctStarts(FlatArray(lines, es))
    requires w != "" ==> forall k :: 0 <= k < |es| ==> Offset(lines, es[k].range.start) != i
    ensures GroupText(lines, es, i, w) == w + Inserted(FlatArray(lines, es), i)
    decreases |es|
  {
    var fs := FlatArray(lines, es);
    if es != [] {
      assert es == [es[0]] + es[1..];
      InsertedFirst(lines, es[0], es[1..], i);
      assert forall k :: 0 <= k < |es[1..]| ==> FlatArray(lines, es[1..])[k] == fs[k + 1];
      AbsorbedAlone(lines, es[0]);
      var here := if Offset(lines, es[0].range.start) == i then Absorbed(lines, w, es[0]) else w;
      if Offset(lines, es[0].range.start) == i {
        forall k | 0 <= k < |es[1..]| ensures Offset(lines, es[1..][k].range.start) != i {
          assert fs[k + 1].start != fs[0].start;
        }
      }
      GroupTextAlone(lines, es[1..], i, here);
    }
  }

  /** For every array of placed edits that neither overlap nor share a start, in any order,
      bottom-up editing is the simultaneous replacement of LSP 3.17. */
  lemma EditedIsSimultaneous(content: string, es: seq<TextEdit>)
    requires Disjoint(Split(content, NEWLINE), es)
    ensures Edited(content, es) == Simultaneous(content, FlatArray(Split(content, NEWLINE), es), 0)
  {
    var lines := Split(content, NEWLINE);
    DisjointSorts(lines, es);
    EditedIsSimultaneousExactly(content, es);
    assert DistinctStarts(FlatArray(lines, es)) by {
      forall j, k | 0 <= j < k < |es| ensures Offset(lines, es[j].range.start) != Offset(lines, es[k].range.start) {
        assert AllowedPair(lines, false, es[j], es[k]);
      }
    }
    forall i: nat ensures GroupText(lines, es, i, "") == Inserted(FlatArray(lines, es), i) {
      GroupTextAlone(lines, es, i, "");
    }
  }

  // ----- the arrays for which the texts do not matter

  function Retexted(es: seq<TextEdit>, texts: seq<string>): (rs: seq<TextEdit>)
    requires |texts| == |es|
    ensures |rs| == |es| && forall k :: 0 <= k < |es| ==> rs[k] == TextEdit(es[k].range, texts[k])
  {
    seq(|es|, k requires 0 <= k < |es| => TextEdit(es[k].range, texts[k]))
  }

  lemma RetextedAllowed(lines: seq<string>, ties: bool, es: seq<TextEdit>, texts: seq<string>)
    requires |texts| == |es| && Allowed(lines, ties, es)
    ensures Allowed(lines, ties, Retexted(es, texts))
  {
    var rs := Retexted(es, texts);
    forall j, k | 0 <= j < k < |rs| ensures AllowedPair(lines, ties, rs[j], rs[k]) {
      assert AllowedPair(lines, ties, es[j], es[k]);
    }
  }

  lemma AbsorbedByNothing(lines: seq<string>, w: string, e: TextEdit)
    requires Insertion(e) && e.newText == "" && e.range.start.line < |lines|
    ensures Absorbed(lines, w, e) == w
  {
    var c := e.range.start.character;
    assert Slice(lines[e.range.start.line], c, c) == "";
    assert w + "" == w && "" + w == w;
  }

  predicate Idle(lines: seq<string>, es: seq<TextEdit>, i: nat) {
    forall k :: 0 <= k < |es| ==>
      Placed(lines, es[k]) &&
      (Offset(lines, es[k].range.start) != i || (Insertion(es[k]) && es[k].newText == ""))
  }

  /** Edits elsewhere, and insertions of nothing, leave a group as it is. */
  lemma {:induction false} GroupTextIdle(lines: seq<string>, es: seq<TextEdit>, i: nat, w: string)
    requires Idle(lines, es, i)
    ensures GroupText(lines, es, i, w) == w && Inserted(FlatArray(lines, es), i) == ""
    decreases |es|
  {
    if es != [] {
      assert es == [es[0]] + es[1..];
      InsertedFirst(lines, es[0], es[1..], i);
      GroupTextIdle(lines, es[1..], i, w);
      if Insertion(es[0]) && es[0].newText == "" {
        AbsorbedByNothing(lines, w, es[0]);
      }
      assert "" + Inserted(FlatArray(lines, es[1..]), i) == "";
    }
  }

  lemma {:induction false} InsertedConcat(lines: seq<string>, a: seq<TextEdit>, b: seq<TextEdit>, i: nat)
    ensures Inserted(FlatArray(lines, a + b), i) == Inserted(FlatArray(lines, a), i) + Inserted(FlatArray(lines, b), i)
  {
    assert FlatArray(lines, a + b) == FlatArray(lines, a) + FlatArray(lines, b);
    InsertedAppend(FlatArray(lines, a), FlatArray(lines, b), i);
  }

  lemma {:induction false} GroupTextConcat(lines: seq<string>, a: seq<TextEdit>, b: seq<TextEdit>, i: nat, w: string)
    ensures GroupText(lines, a + b, i, w) == GroupText(lines, b, i, GroupText(lines, a, i, w))
    decreases |a|
  {
    if a == [] {
      assert a + b == b;
    } else {
      assert (a + b)[1..] == a[1..] + b;
      GroupTextConcat(lines, a[1..], b, i,
        if Offset(lines, a[0].range.start) == i then Absorbed(lines, w, a[0]) else w);
    }
  }

  /** Two edits in an otherwise idle group. */
  lemma GroupOfTwo(lines: seq<string>, a: seq<TextEdit>, x: TextEdit, b: seq<TextEdit>, y: TextEdit, c: seq<TextEdit>, i: nat)
    requires Offset(lines, x.range.start) == i == Offset(lines, y.range.start)
    requires Idle(lines, a, i) && Idle(lines, b, i) && Idle(lines, c, i)
    ensures GroupText(lines, a + ([x] + (b + ([y] + c))), i, "") == Absorbed(lines, x.newText, y)
    ensures Inserted(FlatArray(lines, a + ([x] + (b + ([y] + c)))), i) == x.newText + y.newText
  {
    AbsorbedAlone(lines, x);
    GroupOfOne(lines, a, x, b + ([y] + c), i, "");
    GroupOfOne(lines, b, y, c, i, x.newText);
    GroupTextIdle(lines, c, i, Absorbed(lines, x.newText, y));
    var text := y.newText;
    assert text + "" == text;
  }

  /** One edit at offset i after idle ones. */
  lemma GroupOfOne(lines: seq<string>, idle: seq<TextEdit>, e: TextEdit, more: seq<TextEdit>, i: nat, w: string)
    requires Offset(lines, e.range.start) == i && Idle(lines, idle, i)
    ensures GroupText(lines, idle + ([e] + more), i, w) == GroupText(lines, more, i, Absorbed(lines, w, e))
    ensures Inserted(FlatArray(lines, idle + ([e] + more)), i) == e.newText + Inserted(FlatArray(lines, more), i)
  {
    GroupTextIdle(lines, idle, i, w);
    GroupTextConcat(lines, idle, [e] + more, i, w);
    assert ([e] + more)[1..] == more;
    InsertedConcat(lines, idle, [e] + more, i);
    InsertedFirst(lines, e, more, i);
    var rest := Inserted(FlatArray(lines, [e] + more), i);
    assert "" + rest == rest;
  }

  lemma AbsorbedByInsertion(lines: seq<string>, w: string, e: TextEdit)
    requires Insertion(e) && e.range.start.line < |lines|
    ensures Absorbed(lines, w, e) == e.newText + w
  {
    var c := e.range.start.character;
    assert Slice(lines[e.range.start.line], c, c) == "";
    assert w + "" == w;
  }

  function Two(n: nat, j: nat, first: string, k: nat, second: string): (texts: seq<string>)
    ensures |texts| == n
    ensures forall m :: 0 <= m < n ==> texts[m] == if m == j then first else if m == k then second else ""
  {
    seq(n, m => if m == j then first else if m == k then second else "")
  }

  /** A text which, inserted in front of e, does not survive e. */
  function Victim(lines: seq<string>, e: TextEdit): (w: string)
    requires WellFormed(e.range) && !Insertion(e) && InText(lines, e.range.start)
    ensures Absorbed(lines, w, TextEdit(e.range, "")) != w
  {
    var s, t := e.range.start, e.range.end;
    if s.line == t.line then
      var removed, d := Slice(lines[s.line], s.character, t.character), t.character - s.character;
      var w := if removed == "" || removed[0] == 'a' then seq(d, _ => 'b') else seq(d, _ => 'a');
      assert |w| == d > 0 && Drop(w + removed, d) == removed;
      assert removed != w;
      w
    else "a"
  }

  /** An array with two edits at one start goes wrong for some texts. */
  lemma TieGoesWrong(content: string, es: seq<TextEdit>, j: nat, k: nat) returns (texts: seq<string>)
    requires Legal(Split(content, NEWLINE), es) && j < k < |es|
    requires !Apart(Split(content, NEWLINE), es[j], es[k])
    ensures |texts| == |es|
    ensures Edited(content, Retexted(es, texts)) !=
            Simultaneous(content, FlatArray(Split(content, NEWLINE), Retexted(es, texts)), 0)
  {
    var lines := Split(content, NEWLINE);
    assert AllowedPair(lines, true, es[j], es[k]);
    var last := LastOfGroup(lines, es, k);
    if !Insertion(es[last]) {
      var w := Victim(lines, es[last]);
      texts := Two(|es|, j, w, last, "");
      assert w + "" == w;
    } else {
      texts := Two(|es|, j, "a", last, "b");
      AbsorbedByInsertion(lines, "a", TextEdit(es[last].range, "b"));
      assert ("b" + "a")[0] != ("a" + "b")[0];
    }
    TwoGoWrong(content, es, j, last, texts);
  }

  /** The group of two edits in an array all of whose other edits are idle there. */
  lemma GroupOfTwoIn(lines: seq<string>, rs: seq<TextEdit>, j: nat, k: nat, i: nat)
    requires j < k < |rs|
    requires Offset(lines, rs[j].range.start) == i == Offset(lines, rs[k].range.start)
    requires Idle(lines, rs[..j], i) && Idle(lines, rs[j + 1..k], i) && Idle(lines, rs[k + 1..], i)
    ensures GroupText(lines, rs, i, "") == Absorbed(lines, rs[j].newText, rs[k])
    ensures Inserted(FlatArray(lines, rs), i) == rs[j].newText + rs[k].newText
  {
    assert rs == rs[..j] + ([rs[j]] + (rs[j + 1..k] + ([rs[k]] + rs[k + 1..])));
    GroupOfTwo(lines, rs[..j], rs[j], rs[j + 1..k], rs[k], rs[k + 1..], i);
  }

  lemma TwoGoWrong(content: string, es: seq<TextEdit>, j: nat, k: nat, texts: seq<string>)
    requires Legal(Split(content, NEWLINE), es) && j < k < |es| && |texts| == |es|
    requires forall m :: 0 <= m < |es| && m != j && m != k ==> texts[m] == ""
    requires es[j].range.start == es[k].range.start
    requires forall m :: 0 <= m < |es| && m != k &&
               Offset(Split(content, NEWLINE), es[m].range.start) == Offset(Split(content, NEWLINE), es[k].range.start)
               ==> Insertion(es[m])
    requires Absorbed(Split(content, NEWLINE), texts[j], TextEdit(es[k].range, texts[k])) != texts[j] + texts[k]
    ensures Edited(content, Retexted(es, texts)) !=
            Simultaneous(content, FlatArray(Split(content, NEWLINE), Retexted(es, texts)), 0)
  {
    var lines, rs := Split(content, NEWLINE), Retexted(es, texts);
    var i := Offset(lines, es[k].range.start);
    RetextedAllowed(lines, true, es, texts);
    GroupOfTwoIn(lines, rs, j, k, i);
    assert i <= |content| by {
      JoinSplit(content, NEWLINE);
      OffsetOnLine(lines, es[k].range.start);
    }
    EditedIsSimultaneousExactly(content, rs);
  }

  /** The last edit of the array that starts where edit k does; all others of that group are insertions. */
  lemma LastOfGroup(lines: seq<string>, es: seq<TextEdit>, k: nat) returns (last: nat)
    requires Legal(lines, es) && k < |es| && InText(lines, es[k].range.start)
    ensures k <= last < |es| && es[last].range.start == es[k].range.start
    ensures forall m :: 0 <= m < |es| && m != last && Offset(lines, es[m].range.start) == Offset(lines, es[k].range.start)
              ==> Insertion(es[m])
    decreases |es| - k
  {
    if m :| k < m < |es| && !Apart(lines, es[k], es[m]) {
      assert AllowedPair(lines, true, es[k], es[m]);
      last := LastOfGroup(lines, es, m);
    } else {
      last := k;
      forall m | 0 <= m < |es| && m != k && Offset(lines, es[m].range.start) == Offset(lines, es[k].range.start)
        ensures Insertion(es[m])
      {
        if m < k {
          assert AllowedPair(lines, true, es[m], es[k]);
        }
      }
    }
  }

  /** A legal array of ranges is applied with its LSP meaning whatever its new texts are exactly
      when no two of its edits share a start. */
  lemma AlwaysSimultaneousExactly(content: string, es: seq<TextEdit>)
    requires Legal(Split(content, NEWLINE), es)
    ensures (forall texts: seq<string> :: |texts| == |es| ==>
               Edited(content, Retexted(es, texts)) ==
               Simultaneous(content, FlatArray(Split(content, NEWLINE), Retexted(es, texts)), 0))
            <==> Disjoint(Split(content, NEWLINE), es)
  {
    var lines := Split(content, NEWLINE);
    if Disjoint(lines, es) {
      forall texts: seq<string> | |texts| == |es|
        ensures Edited(content, Retexted(es, texts)) == Simultaneous(content, FlatArray(lines, Retexted(es, texts)), 0)
      {
        RetextedAllowed(lines, false, es, texts);
        EditedIsSimultaneous(content, Retexted(es, texts));
      }
    } else {
      var j, k :| 0 <= j < k < |es| && !AllowedPair(lines, false, es[j], es[k]);
      var texts := TieGoesWrong(content, es, j, k);
    }
  }
}

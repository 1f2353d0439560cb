/** The rename service's way of applying an array of edits to one file: sort by start position,
    last first, and edit the list of lines one record at a time. Proved here: what that produces
    in terms of the simultaneous meaning of the array, and exactly when the two agree. */
module BottomUp {
  import opened Sequences
  import opened Lines
  import opened TextEdits
  import opened TextEditArrays

  // ----- the algorithm as a function

  function ApplyAll(lines: seq<string>, es: seq<TextEdit>): seq<string> {
    if es == [] then lines else ApplyEdit(ApplyAll(lines, es[..|es| - 1]), es[|es| - 1])
  }

  /** Insertion in front of the first element that does not start later: equal starts keep their order. */
  function Insert(x: TextEdit, s: seq<TextEdit>): seq<TextEdit> {
    if s == [] || AtOrBefore(s[0].range.start, x.range.start) then [x] + s
    else [s[0]] + Insert(x, s[1..])
  }

  /** A stable sort by start position in descending order, as `sorted(..., reverse=True)`. */
  function SortDescending(es: seq<TextEdit>): seq<TextEdit> {
    if es == [] then [] else Insert(es[0], SortDescending(es[1..]))
  }

  function Edited(content: string, es: seq<TextEdit>): string {
    Join(ApplyAll(Split(content, NEWLINE), SortDescending(es)), NEWLINE)
  }

  // ----- edits as flat edits of the original text

  function Flatten(lines: seq<string>, e: TextEdit): FlatEdit {
    FlatEdit(Offset(lines, e.range.start), Offset(lines, e.range.end), e.newText)
  }

  function FlatArray(lines: seq<string>, es: seq<TextEdit>): (fs: seq<FlatEdit>)
    ensures |fs| == |es| && forall k :: 0 <= k < |es| ==> fs[k] == Flatten(lines, es[k])
  {
    seq(|es|, k requires 0 <= k < |es| => Flatten(lines, es[k]))
  }

  function Reverse(es: seq<TextEdit>): (rs: seq<TextEdit>)
    ensures |rs| == |es| && forall k :: 0 <= k < |es| ==> rs[k] == es[|es| - 1 - k]
  {
    seq(|es|, k requires 0 <= k < |es| => es[|es| - 1 - k])
  }

  predicate InText(lines: seq<string>, p: Position) {
    p.line < |lines| && p.character <= |lines[p.line]|
  }

  /** A range ending at p leaves a start at q alone; where the two meet, p must be a real position. */
  predicate Clear(lines: seq<string>, p: Position, q: Position) {
    Offset(lines, p) < Offset(lines, q) || (Offset(lines, p) == Offset(lines, q) && InText(lines, p))
  }

  /** The edit is a proper range whose first line exists. */
  predicate Placed(lines: seq<string>, e: TextEdit) {
    WellFormed(e.range) && e.range.start.line < |lines|
  }

  /** e lies below f and starts strictly below it. */
  predicate Before(lines: seq<string>, e: TextEdit, f: TextEdit) {
    Offset(lines, e.range.start) < Offset(lines, f.range.start) && Clear(lines, e.range.end, f.range.start)
  }

  predicate Apart(lines: seq<string>, e: TextEdit, f: TextEdit) {
    Before(lines, e, f) || Before(lines, f, e)
  }

  predicate Insertion(e: TextEdit) {
    e.range.start == e.range.end
  }

  /** e comes earlier in the array: it is apart from f or, where ties are allowed, an insertion
      where f starts. */
  predicate AllowedPair(lines: seq<string>, ties: bool, e: TextEdit, f: TextEdit) {
    Apart(lines, e, f) ||
    (ties && Insertion(e) && e.range.start == f.range.start && InText(lines, e.range.start))
  }

  predicate Allowed(lines: seq<string>, ties: bool, es: seq<TextEdit>) {
    (forall k :: 0 <= k < |es| ==> Placed(lines, es[k])) &&
    (forall j, k :: 0 <= j < k < |es| ==> AllowedPair(lines, ties, es[j], es[k]))
  }

  /** The arrays LSP 3.17 allows: ranges do not overlap, and a start is shared only by insertions,
      the last of which may instead be a replacement. */
  predicate Legal(lines: seq<string>, es: seq<TextEdit>) {
    Allowed(lines, true, es)
  }

  /** Ranges do not overlap and all start at different offsets. */
  predicate Disjoint(lines: seq<string>, es: seq<TextEdit>) {
    Allowed(lines, false, es)
  }

  // ----- editing leaves everything above the edited position in place

  predicate Untouched(orig: seq<string>, lines: seq<string>, p: Position) {
    p.line < |orig| && p.line < |lines| && lines[..p.line] == orig[..p.line] &&
    Take(orig[p.line], p.character) <= lines[p.line]
  }

  lemma UntouchedAbove(orig: seq<string>, lines: seq<string>, q: Position, p: Position)
    requires Untouched(orig, lines, q) && AtOrBefore(p, q)
    ensures Untouched(orig, lines, p)
  {
    assert lines[..p.line] == lines[..q.line][..p.line];
    assert orig[..p.line] == orig[..q.line][..p.line];
    if p.line < q.line {
      assert lines[p.line] == lines[..q.line][p.line] == orig[p.line];
    }
  }

  lemma ApplyEditKeepsAbove(orig: seq<string>, lines: seq<string>, e: TextEdit)
    requires Untouched(orig, lines, e.range.start)
    ensures Untouched(orig, ApplyEdit(lines, e), e.range.start)
  {
    var s := e.range.start;
    assert Take(orig[s.line], s.character) <= Take(lines[s.line], s.character);
  }

  lemma ClearMeansAbove(lines: seq<string>, p: Position, q: Position)
    requires Clear(lines, p, q) && q.line < |lines|
    ensures p.line < q.line ||
            (p.line == q.line && p.character <= q.character && p.character <= |lines[q.line]|)
  {
    OffsetOnLine(lines, q);
    if p.line > q.line {
      OffsetMonotone(lines, q, p);
      assert false;
    }
  }

  lemma SameOffset(orig: seq<string>, lines: seq<string>, q: Position, p: Position)
    requires Untouched(orig, lines, q) && Clear(orig, p, q)
    ensures AtOrBefore(p, q) && Offset(lines, p) == Offset(orig, p)
  {
    ClearMeansAbove(orig, p, q);
    UntouchedAbove(orig, lines, q, p);
    if p.line < q.line {
      assert lines[p.line] == lines[..q.line][p.line] == orig[..q.line][p.line] == orig[p.line];
    }
  }

  /** A start position at or above a clear end position keeps its offset as well. */
  lemma SameStartOffset(orig: seq<string>, lines: seq<string>, q: Position, r: Range)
    requires Untouched(orig, lines, q) && Clear(orig, r.end, q) && WellFormed(r)
    ensures AtOrBefore(r.start, q) && Offset(lines, r.start) == Offset(orig, r.start)
  {
    ClearMeansAbove(orig, r.end, q);
    OffsetMonotone(orig, r.start, r.end);
    if r.start.line < r.end.line {
      OffsetOnLine(orig, r.start);
      LeadGrows(orig, r.start.line, r.end.line);
    }
    assert Clear(orig, r.start, q);
    SameOffset(orig, lines, q, r.start);
  }

  // ----- processing from the last position to the first

  predicate Descending(lines: seq<string>, es: seq<TextEdit>) {
    (forall k :: 0 <= k < |es| ==> Placed(lines, es[k])) &&
    (forall j, k :: 0 <= j < k < |es| ==> Clear(lines, es[k].range.end, es[j].range.start))
  }

  lemma DescendingPrefix(lines: seq<string>, init: seq<TextEdit>, e: TextEdit)
    requires Descending(lines, init + [e])
    ensures Descending(lines, init)
  {
    assert forall k :: 0 <= k < |init| ==> (init + [e])[k] == init[k];
  }

  lemma {:induction false} DescendingIsSimultaneous(orig: seq<string>, es: seq<TextEdit>)
    requires orig != [] && Descending(orig, es)
    ensures ApplyAll(orig, es) != []
    ensures es != [] ==> Untouched(orig, ApplyAll(orig, es), es[|es| - 1].range.start)
    ensures Join(ApplyAll(orig, es), NEWLINE)
         == Simultaneous(Join(orig, NEWLINE), FlatArray(orig, Reverse(es)), 0)
  {
    if es == [] {
      var text := Join(orig, NEWLINE);
      KeptBelow(text, [], 0, |text|);
    } else {
      var init, e := es[..|es| - 1], es[|es| - 1];
      assert es == init + [e];
      DescendingPrefix(orig, init, e);
      DescendingIsSimultaneous(orig, init);
      ApplyAllLast(orig, init, e);
      OneMoreEdit(orig, ApplyAll(orig, init), init, e);
    }
  }

  lemma OneMoreEdit(orig: seq<string>, lines: seq<string>, init: seq<TextEdit>, e: TextEdit)
    requires Descending(orig, init + [e])
    requires if init == [] then lines == orig else Untouched(orig, lines, init[|init| - 1].range.start)
    requires Join(lines, NEWLINE) == Simultaneous(Join(orig, NEWLINE), FlatArray(orig, Reverse(init)), 0)
    ensures Untouched(orig, ApplyEdit(lines, e), e.range.start)
    ensures Join(ApplyEdit(lines, e), NEWLINE)
         == Simultaneous(Join(orig, NEWLINE), FlatArray(orig, Reverse(init + [e])), 0)
  {
    assert Placed(orig, e) by { assert (init + [e])[|init|] == e; }
    StepInPlace(orig, lines, init, e);
    ApplyEditKeepsAbove(orig, lines, e);
    ApplyEditReplaces(lines, e);
    FlatReversed(orig, init, e);
    AddFlat(orig, FlatArray(orig, Reverse(init + [e])), e);
  }

  lemma FlatReversed(orig: seq<string>, init: seq<TextEdit>, e: TextEdit)
    ensures var gs := FlatArray(orig, Reverse(init + [e]));
            gs != [] && gs[0] == Flatten(orig, e) && gs[1..] == FlatArray(orig, Reverse(init))
  {
  }

  lemma AddFlat(orig: seq<string>, gs: seq<FlatEdit>, e: TextEdit)
    requires Placed(orig, e) && gs != [] && gs[0] == Flatten(orig, e)
    requires AllFrom(gs[1..], Offset(orig, e.range.end))
    ensures var text := Join(orig, NEWLINE);
            var now := Simultaneous(text, gs[1..], 0);
            Offset(orig, e.range.start) <= Offset(orig, e.range.end) <= |now| &&
            Simultaneous(text, gs, 0) ==
            Replace(now, Offset(orig, e.range.start), Offset(orig, e.range.end), e.newText)
  {
    ApplyEditReplaces(orig, e);
    AddBelow(Join(orig, NEWLINE), gs);
  }

  lemma StepInPlace(orig: seq<string>, lines: seq<string>, init: seq<TextEdit>, e: TextEdit)
    requires Descending(orig, init + [e])
    requires if init == [] then lines == orig else Untouched(orig, lines, init[|init| - 1].range.start)
    ensures Untouched(orig, lines, e.range.start)
    ensures Offset(lines, e.range.start) == Offset(orig, e.range.start)
    ensures Offset(lines, e.range.end) == Offset(orig, e.range.end)
    ensures AllFrom(FlatArray(orig, Reverse(init)), Offset(orig, e.range.end))
  {
    var es := init + [e];
    assert es[|init|] == e;
    assert forall j :: 0 <= j < |init| ==> es[j] == init[j] && Clear(orig, e.range.end, init[j].range.start);
    if init != [] {
      var q := init[|init| - 1].range.start;
      SameStartOffset(orig, lines, q, e.range);
      SameOffset(orig, lines, q, e.range.end);
      UntouchedAbove(orig, lines, q, e.range.start);
    }
  }

  // ----- the sort

  predicate Sorted(es: seq<TextEdit>) {
    forall j, k :: 0 <= j < k < |es| ==> AtOrBefore(es[k].range.start, es[j].range.start)
  }

  lemma {:induction false} InsertElements(x: TextEdit, s: seq<TextEdit>)
    ensures |Insert(x, s)| == |s| + 1
    ensures forall y :: y in Insert(x, s) <==> y == x || y in s
    ensures Sorted(s) ==> Sorted(Insert(x, s))
  {
    if !(s == [] || AtOrBefore(s[0].range.start, x.range.start)) {
      InsertElements(x, s[1..]);
      assert s == [s[0]] + s[1..];
      var rest := Insert(x, s[1..]);
      assert forall k :: 0 <= k < |rest| ==> rest[k] in rest;
    }
  }

  /** The edits that start at a position, in order. */
  function StartingAt(es: seq<TextEdit>, p: Position): seq<TextEdit> {
    if es == [] then [] else (if es[0].range.start == p then [es[0]] else []) + StartingAt(es[1..], p)
  }

  lemma {:induction false} InsertInFront(x: TextEdit, s: seq<TextEdit>, p: Position)
    requires Sorted(s)
    ensures StartingAt(Insert(x, s), p) == (if x.range.start == p then [x] else []) + StartingAt(s, p)
  {
    if s == [] || AtOrBefore(s[0].range.start, x.range.start) {
      assert ([x] + s)[1..] == s;
    } else {
      InsertInFront(x, s[1..], p);
      assert ([s[0]] + Insert(x, s[1..]))[1..] == Insert(x, s[1..]);
      assert s[0].range.start != x.range.start;
    }
  }

  /** The sort is descending and keeps the order of edits with the same start, which determines it. */
  lemma {:induction false} SortIsStable(es: seq<TextEdit>, p: Position)
    ensures Sorted(SortDescending(es)) && |SortDescending(es)| == |es|
    ensures StartingAt(SortDescending(es), p) == StartingAt(es, p)
  {
    if es != [] {
      SortIsStable(es[1..], p);
      InsertElements(es[0], SortDescending(es[1..]));
      InsertInFront(es[0], SortDescending(es[1..]), p);
    }
  }

  lemma {:induction false} InsertAllowed(lines: seq<string>, ties: bool, x: TextEdit, s: seq<TextEdit>)
    requires Allowed(lines, ties, s) && Placed(lines, x)
    requires forall k :: 0 <= k < |s| ==> AllowedPair(lines, ties, x, s[k])
    ensures Allowed(lines, ties, Insert(x, s))
  {
    if !(s == [] || AtOrBefore(s[0].range.start, x.range.start)) {
      InsertAllowed(lines, ties, x, s[1..]);
      InsertElements(x, s[1..]);
      var rest := Insert(x, s[1..]);
      assert AllowedPair(lines, ties, x, s[0]);
      forall k | 0 <= k < |rest| ensures AllowedPair(lines, ties, s[0], rest[k]) {
        assert rest[k] in rest;
        if rest[k] != x {
          var j :| 0 <= j < |s[1..]| && s[1..][j] == rest[k];
          assert s[j + 1] == rest[k];
        }
      }
    }
  }

  lemma AllowedHead(lines: seq<string>, ties: bool, es: seq<TextEdit>, s: seq<TextEdit>)
    requires Allowed(lines, ties, es) && es != []
    requires forall y :: y in s ==> y in es[1..]
    ensures forall k :: 0 <= k < |s| ==> AllowedPair(lines, ties, es[0], s[k])
  {
    forall k | 0 <= k < |s| ensures AllowedPair(lines, ties, es[0], s[k]) {
      assert s[k] in s;
      var j :| 0 <= j < |es[1..]| && es[1..][j] == s[k];
      assert es[j + 1] == s[k];
    }
  }

  lemma {:induction false} SortKeeps(lines: seq<string>, ties: bool, es: seq<TextEdit>)
    requires Allowed(lines, ties, es)
    ensures Allowed(lines, ties, SortDescending(es)) && Sorted(SortDescending(es))
    ensures forall y :: y in SortDescending(es) <==> y in es
  {
    if es != [] {
      SortKeeps(lines, ties, es[1..]);
      var s := SortDescending(es[1..]);
      InsertElements(es[0], s);
      assert es == [es[0]] + es[1..];
      AllowedHead(lines, ties, es, s);
      InsertAllowed(lines, ties, es[0], s);
    }
  }

  lemma DisjointSorts(lines: seq<string>, es: seq<TextEdit>)
    requires Disjoint(lines, es)
    ensures Legal(lines, es)
    ensures StrictlyDescending(lines, SortDescending(es)) && Descending(lines, SortDescending(es))
    ensures forall y :: y in SortDescending(es) <==> y in es
  {
    SortKeeps(lines, false, es);
    var s := SortDescending(es);
    forall j, k | 0 <= j < k < |s| ensures Before(lines, s[k], s[j]) {
      OffsetMonotone(lines, s[k].range.start, s[j].range.start);
      assert AllowedPair(lines, false, s[j], s[k]);
    }
    StrictlyDescendingIsDescending(lines, s);
    forall j, k | 0 <= j < k < |es| ensures AllowedPair(lines, true, es[j], es[k]) {
      assert AllowedPair(lines, false, es[j], es[k]);
    }
  }

  // ----- edits that share a start

  /** What the text w, inserted where e starts, and then e itself leave in place of e's range. On one
      line e removes as many characters as its range has, beginning with those of w; across lines it
      removes all of w. */
  function Absorbed(lines: seq<string>, w: string, e: TextEdit): string {
    var s, t := e.range.start, e.range.end;
    if s.line == t.line < |lines| && s.character <= t.character then
      e.newText + Drop(w + Slice(lines[s.line], s.character, t.character), t.character - s.character)
    else e.newText
  }

  function Slice(s: string, from: nat, to: nat): string {
    Drop(Take(s, to), from)
  }

  /** Sorted edits with every group of equal starts combined into one edit. */
  function Merge(lines: seq<string>, es: seq<TextEdit>): (m: seq<TextEdit>)
    ensures |m| <= |es|
    ensures es != [] ==> m != [] && m[|m| - 1].range == es[|es| - 1].range
  {
    if es == [] then [] else MergeOne(lines, Merge(lines, es[..|es| - 1]), es[|es| - 1])
  }

  /** Whether e is combined with the last merged edit. */
  predicate Ties(m: seq<TextEdit>, e: TextEdit) {
    m != [] && Insertion(m[|m| - 1]) && m[|m| - 1].range.start == e.range.start
  }

  function MergeOne(lines: seq<string>, m: seq<TextEdit>, e: TextEdit): (all: seq<TextEdit>)
    ensures all != [] && |all| <= |m| + 1 && all[|all| - 1].range == e.range
    ensures forall k :: 0 <= k < |all| - 1 ==> all[k] == m[k]
  {
    if Ties(m, e) then m[..|m| - 1] + [TextEdit(e.range, Absorbed(lines, m[|m| - 1].newText, e))] else m + [e]
  }

  predicate StrictlyDescending(lines: seq<string>, m: seq<TextEdit>) {
    (forall k :: 0 <= k < |m| ==> Placed(lines, m[k])) &&
    (forall j, k :: 0 <= j < k < |m| ==> Before(lines, m[k], m[j]))
  }

  predicate RangesFrom(m: seq<TextEdit>, es: seq<TextEdit>) {
    forall k :: 0 <= k < |m| ==> exists j :: 0 <= j < |es| && es[j].range == m[k].range
  }

  lemma {:induction false} MergeSeparates(lines: seq<string>, es: seq<TextEdit>)
    requires Legal(lines, es) && Sorted(es)
    ensures StrictlyDescending(lines, Merge(lines, es)) && RangesFrom(Merge(lines, es), es)
  {
    if es != [] {
      var init, e := es[..|es| - 1], es[|es| - 1];
      assert Legal(lines, init) && Sorted(init);
      MergeSeparates(lines, init);
      var m, all := Merge(lines, init), Merge(lines, es);
      forall k | 0 <= k < |all| - 1 ensures Before(lines, e, m[k]) {
        SeparateFromEarlier(lines, es, m, k);
      }
      RangesGrow(es, m, all);
      StrictlyDescendingGrows(lines, m, all, e);
    }
  }

  lemma StrictlyDescendingGrows(lines: seq<string>, m: seq<TextEdit>, all: seq<TextEdit>, e: TextEdit)
    requires StrictlyDescending(lines, m) && all != [] && |all| <= |m| + 1 && all[|all| - 1].range == e.range
    requires Placed(lines, e) && forall k :: 0 <= k < |all| - 1 ==> all[k] == m[k] && Before(lines, e, m[k])
    ensures StrictlyDescending(lines, all)
  {
  }

  lemma RangesGrow(es: seq<TextEdit>, m: seq<TextEdit>, all: seq<TextEdit>)
    requires es != [] && all != [] && |all| <= |m| + 1 && RangesFrom(m, es[..|es| - 1])
    requires all[|all| - 1].range == es[|es| - 1].range
    requires forall k :: 0 <= k < |all| - 1 ==> all[k] == m[k]
    ensures RangesFrom(all, es)
  {
    forall k | 0 <= k < |all| ensures exists j :: 0 <= j < |es| && es[j].range == all[k].range {
      if k < |all| - 1 {
        var j :| 0 <= j < |es[..|es| - 1]| && es[..|es| - 1][j].range == m[k].range;
        assert es[j].range == all[k].range;
      }
    }
  }

  /** The next edit lies below every merged edit, except that it may start with the last one. */
  lemma SeparateFromEarlier(lines: seq<string>, es: seq<TextEdit>, m: seq<TextEdit>, k: nat)
    requires es != [] && Legal(lines, es) && Sorted(es) && k < |m|
    requires m == Merge(lines, es[..|es| - 1]) && StrictlyDescending(lines, m) && RangesFrom(m, es[..|es| - 1])
    ensures var e, last := es[|es| - 1], m[|m| - 1];
            Before(lines, e, m[k]) ||
            (k == |m| - 1 && Insertion(last) && last.range.start == e.range.start && InText(lines, e.range.start))
  {
    var e, last := es[|es| - 1], m[|m| - 1];
    var j := SourceOf(m, es, k);
    PairWithLast(lines, es, j);
    PairBelow(lines, es[j], e);
    if k < |m| - 1 {
      assert last.range == es[|es| - 2].range;
      PairWithLast(lines, es, |es| - 2);
      LowerStart(lines, e, last, m[k]);
    }
  }

  lemma SourceOf(m: seq<TextEdit>, es: seq<TextEdit>, k: nat) returns (j: nat)
    requires es != [] && RangesFrom(m, es[..|es| - 1]) && k < |m|
    ensures j < |es| - 1 && es[j].range == m[k].range
  {
    var init := es[..|es| - 1];
    j :| 0 <= j < |init| && init[j].range == m[k].range;
  }

  lemma PairWithLast(lines: seq<string>, es: seq<TextEdit>, j: nat)
    requires Legal(lines, es) && Sorted(es) && j < |es| - 1
    ensures AllowedPair(lines, true, es[j], es[|es| - 1]) && AtOrBefore(es[|es| - 1].range.start, es[j].range.start)
  {
  }

  lemma LowerStart(lines: seq<string>, e: TextEdit, f: TextEdit, g: TextEdit)
    requires Before(lines, f, g) && AtOrBefore(e.range.start, f.range.start)
    ensures e.range.start != g.range.start
  {
    OffsetMonotone(lines, e.range.start, f.range.start);
  }

  lemma PairBelow(lines: seq<string>, f: TextEdit, e: TextEdit)
    requires AllowedPair(lines, true, f, e) && AtOrBefore(e.range.start, f.range.start)
    ensures Before(lines, e, f) ||
            (Insertion(f) && f.range.start == e.range.start && InText(lines, e.range.start))
  {
    OffsetMonotone(lines, e.range.start, f.range.start);
  }

  lemma TakeUntouched(orig: seq<string>, lines: seq<string>, q: Position, p: Position, l: nat)
    requires Untouched(orig, lines, q) && Clear(orig, p, q) && l <= p.line
    ensures l < |lines| && l < |orig|
    ensures l == p.line ==> Take(lines[l], p.character) == Take(orig[l], p.character)
  {
    ClearMeansAbove(orig, p, q);
    if l < q.line {
      assert lines[l] == lines[..q.line][l] == orig[..q.line][l] == orig[l];
    }
  }

  /** An insertion followed by an edit starting at the same place is one edit. */
  lemma InsertThenEdit(lines: seq<string>, x: TextEdit, e: TextEdit, source: seq<string>)
    requires Insertion(x) && x.range.start == e.range.start && WellFormed(e.range)
    requires InText(lines, x.range.start) && x.range.start.line < |source|
    requires e.range.start.line == e.range.end.line ==>
      Take(lines[e.range.end.line], e.range.end.character) == Take(source[e.range.end.line], e.range.end.character)
    ensures ApplyEdit(ApplyEdit(lines, x), e) == ApplyEdit(lines, TextEdit(e.range, Absorbed(source, x.newText, e)))
  {
    var s, t := e.range.start, e.range.end;
    var line := lines[s.line];
    var head, rest := Take(line, s.character), Drop(line, s.character);
    var inserted := ApplyEdit(lines, x);
    assert inserted == lines[s.line := head + x.newText + rest];
    assert Take(head + x.newText + rest, s.character) == head;
    if s.line == t.line {
      DropInserted(head, x.newText, line, s.character, t.character);
      assert Slice(line, s.character, t.character) == Slice(source[s.line], s.character, t.character);
      AssociateLeft(head, e.newText,
        Drop(x.newText + Slice(line, s.character, t.character), t.character - s.character), Drop(line, t.character));
    } else {
      assert Suffix(inserted, t) == Suffix(lines, t) && LinesAfter(inserted, t) == LinesAfter(lines, t);
    }
  }

  lemma AssociateLeft(a: string, b: string, c: string, d: string)
    ensures a + b + (c + d) == a + (b + c) + d
  {
  }

  /** Dropping what precedes, and the beginning of what was inserted and removed. */
  lemma DropBehind(head: string, w: string, removed: string, tail: string, n: nat)
    requires n <= |w + removed|
    ensures Drop(head + w + (removed + tail), |head| + n) == Drop(w + removed, n) + tail
  {
    assert head + w + (removed + tail) == head + ((w + removed) + tail);
    DropPrefix(head, (w + removed) + tail, |head| + n);
    DropWithin(w + removed, tail, n);
  }

  lemma DropPast(head: string, w: string, rest: string, n: nat)
    ensures Drop(head + w + rest, |head| + n) == Drop(w + rest, n) + ""
  {
    assert head + w + rest == head + (w + rest);
    DropPrefix(head, w + rest, |head| + n);
  }

  lemma SliceWithin(line: string, from: nat, to: nat)
    requires from <= to <= |line|
    ensures Drop(line, from) == Slice(line, from, to) + Drop(line, to) && |Slice(line, from, to)| == to - from
  {
  }

  lemma SliceBeyond(line: string, from: nat, to: nat)
    requires from <= |line| < to
    ensures Slice(line, from, to) == Drop(line, from) && Drop(line, to) == ""
  {
  }

  lemma DropInsertedWithin(head: string, w: string, line: string, from: nat, to: nat)
    requires from <= to <= |line| && |head| == from
    ensures Drop(head + w + Drop(line, from), to) == Drop(w + Slice(line, from, to), to - from) + Drop(line, to)
  {
    SliceWithin(line, from, to);
    DropBehind(head, w, Slice(line, from, to), Drop(line, to), to - from);
  }

  lemma DropInsertedBeyond(head: string, w: string, line: string, from: nat, to: nat)
    requires from <= |line| < to && |head| == from
    ensures Drop(head + w + Drop(line, from), to) == Drop(w + Slice(line, from, to), to - from) + Drop(line, to)
  {
    SliceBeyond(line, from, to);
    DropPast(head, w, Drop(line, from), to - from);
  }

  lemma DropInserted(head: string, w: string, line: string, from: nat, to: nat)
    requires from <= |line| && |head| == from && from <= to
    ensures Drop(head + w + Drop(line, from), to) == Drop(w + Slice(line, from, to), to - from) + Drop(line, to)
  {
    if to <= |line| {
      DropInsertedWithin(head, w, line, from, to);
    } else {
      DropInsertedBeyond(head, w, line, from, to);
    }
  }

  lemma DropPrefix(head: string, s: string, n: nat)
    requires |head| <= n
    ensures Drop(head + s, n) == Drop(s, n - |head|)
  {
  }

  lemma DropWithin(s: string, tail: string, n: nat)
    requires n <= |s|
    ensures Drop(s + tail, n) == Drop(s, n) + tail
  {
  }

  lemma StrictlyDescendingIsDescending(lines: seq<string>, m: seq<TextEdit>)
    requires StrictlyDescending(lines, m)
    ensures Descending(lines, m)
  {
  }

  /** Merging the last edit into one that starts at the same place. */
  lemma MergeIntoLast(lines: seq<string>, m: seq<TextEdit>, e: TextEdit)
    requires lines != [] && m != [] && InText(lines, e.range.start) && WellFormed(e.range)
    requires Insertion(m[|m| - 1]) && m[|m| - 1].range.start == e.range.start
    requires var merged := TextEdit(e.range, Absorbed(lines, m[|m| - 1].newText, e));
             StrictlyDescending(lines, m[..|m| - 1] + [merged])
    ensures var merged := TextEdit(e.range, Absorbed(lines, m[|m| - 1].newText, e));
            ApplyAll(lines, m[..|m| - 1] + [merged]) == ApplyEdit(ApplyAll(lines, m), e)
  {
    var last := |m| - 1;
    AbsorbLast(lines, m[..last], m[last], e);
    ApplyAllLast(lines, m[..last], m[last]);
    ApplyAllLast(lines, m[..last], TextEdit(e.range, Absorbed(lines, m[last].newText, e)));
    assert m == m[..last] + [m[last]];
  }

  lemma MergeLast(lines: seq<string>, es: seq<TextEdit>)
    requires lines != [] && Legal(lines, es) && Sorted(es) && es != []
    ensures var init, e := es[..|es| - 1], es[|es| - 1];
            ApplyAll(lines, Merge(lines, es)) == ApplyEdit(ApplyAll(lines, Merge(lines, init)), e)
  {
    var init, e := es[..|es| - 1], es[|es| - 1];
    var m := Merge(lines, init);
    MergeSeparates(lines, init);
    MergeSeparates(lines, es);
    if Ties(m, e) {
      SeparateFromEarlier(lines, es, m, |m| - 1);
      MergeIntoLast(lines, m, e);
    } else {
      ApplyAllLast(lines, m, e);
    }
  }

  lemma {:induction false} MergeKeepsResult(lines: seq<string>, es: seq<TextEdit>)
    requires lines != [] && Legal(lines, es) && Sorted(es)
    ensures ApplyAll(lines, Merge(lines, es)) == ApplyAll(lines, es)
  {
    if es != [] {
      var init := es[..|es| - 1];
      assert Legal(lines, init) && Sorted(init);
      MergeKeepsResult(lines, init);
      MergeLast(lines, es);
    }
  }

  lemma ApplyAllLast(lines: seq<string>, es: seq<TextEdit>, e: TextEdit)
    ensures ApplyAll(lines, es + [e]) == ApplyEdit(ApplyAll(lines, es), e)
  {
    assert (es + [e])[..|es|] == es;
  }

  lemma AbsorbLast(orig: seq<string>, m: seq<TextEdit>, x: TextEdit, e: TextEdit)
    requires orig != [] && InText(orig, e.range.start) && WellFormed(e.range)
    requires Insertion(x) && x.range.start == e.range.start
    requires StrictlyDescending(orig, m + [TextEdit(e.range, Absorbed(orig, x.newText, e))])
    ensures ApplyEdit(ApplyEdit(ApplyAll(orig, m), x), e)
         == ApplyEdit(ApplyAll(orig, m), TextEdit(e.range, Absorbed(orig, x.newText, e)))
  {
    var lines := ApplyAll(orig, m);
    if m != [] {
      var all := m + [TextEdit(e.range, Absorbed(orig, x.newText, e))];
      assert forall k :: 0 <= k < |m| ==> all[k] == m[k];
      StrictlyDescendingIsDescending(orig, m);
      DescendingIsSimultaneous(orig, m);
      var q := m[|m| - 1].range.start;
      assert Before(orig, all[|m|], all[|m| - 1]);
      TakeUntouched(orig, lines, q, e.range.end, e.range.start.line);
      SameStartOffset(orig, lines, q, e.range);
      StillInText(orig, lines, q, e.range.start);
    }
    InsertThenEdit(lines, x, e, orig);
  }

  lemma StillInText(orig: seq<string>, lines: seq<string>, q: Position, p: Position)
    requires Untouched(orig, lines, q) && AtOrBefore(p, q) && InText(orig, p)
    ensures InText(lines, p)
  {
    UntouchedAbove(orig, lines, q, p);
  }

  // ----- the texts at one offset, in array order

  /** What editing the array makes of all its edits that start at offset i; w is what earlier edits left there. */
  function GroupText(lines: seq<string>, es: seq<TextEdit>, i: nat, w: string): string {
    if es == [] then w
    else GroupText(lines, es[1..], i,
                   if Offset(lines, es[0].range.start) == i then Absorbed(lines, w, es[0]) else w)
  }

  lemma {:induction false} GroupTextAppend(lines: seq<string>, es: seq<TextEdit>, e: TextEdit, i: nat, w: string)
    ensures GroupText(lines, es + [e], i, w) == GroupText(lines, [e], i, GroupText(lines, es, i, w))
  {
    if es == [] {
      assert es + [e] == [e];
    } else {
      assert (es + [e])[1..] == es[1..] + [e];
      GroupTextAppend(lines, es[1..], e, i,
        if Offset(lines, es[0].range.start) == i then Absorbed(lines, w, es[0]) else w);
    }
  }

  lemma {:induction false} GroupTextInsert(lines: seq<string>, x: TextEdit, s: seq<TextEdit>, i: nat, w: string)
    requires forall k :: 0 <= k < |s| ==> AllowedPair(lines, true, x, s[k])
    ensures GroupText(lines, Insert(x, s), i, w) == GroupText(lines, [x] + s, i, w)
    decreases |s|
  {
    if !(s == [] || AtOrBefore(s[0].range.start, x.range.start)) {
      assert AllowedPair(lines, true, x, s[0]);
      var here := if Offset(lines, s[0].range.start) == i then Absorbed(lines, w, s[0]) else w;
      GroupTextInsert(lines, x, s[1..], i, here);
      assert ([s[0]] + Insert(x, s[1..]))[1..] == Insert(x, s[1..]);
      assert ([x] + s[1..])[1..] == s[1..] && ([x] + s)[1..] == s;
    }
  }

  lemma {:induction false} GroupTextSort(lines: seq<string>, es: seq<TextEdit>, i: nat, w: string)
    requires Legal(lines, es)
    ensures GroupText(lines, SortDescending(es), i, w) == GroupText(lines, es, i, w)
    decreases |es|
  {
    if es != [] {
      SortKeeps(lines, true, es[1..]);
      AllowedHead(lines, true, es, SortDescending(es[1..]));
      GroupTextInsert(lines, es[0], SortDescending(es[1..]), i, w);
      var s := SortDescending(es[1..]);
      assert ([es[0]] + s)[1..] == s;
      GroupTextSort(lines, es[1..], i,
        if Offset(lines, es[0].range.start) == i then Absorbed(lines, w, es[0]) else w);
    }
  }

  lemma {:induction false} InsertedAppend(fs: seq<FlatEdit>, gs: seq<FlatEdit>, i: nat)
    ensures Inserted(fs + gs, i) == Inserted(fs, i) + Inserted(gs, i)
  {
    if fs == [] {
      assert fs + gs == gs;
    } else {
      InsertedAppend(fs[1..], gs, i);
      assert (fs + gs)[1..] == fs[1..] + gs;
      Assoc(TextAt(fs[0], i), Inserted(fs[1..], i), Inserted(gs, i));
    }
  }

  lemma InsertedLast(lines: seq<string>, m: seq<TextEdit>, e: TextEdit, i: nat)
    ensures Inserted(FlatArray(lines, m + [e]), i) ==
            Inserted(FlatArray(lines, m), i) + (if Offset(lines, e.range.start) == i then e.newText else "")
  {
    var f := [Flatten(lines, e)];
    assert FlatArray(lines, m + [e]) == FlatArray(lines, m) + f;
    InsertedAppend(FlatArray(lines, m), f, i);
    assert f[1..] == [];
  }

  lemma InsertedFirst(lines: seq<string>, x: TextEdit, s: seq<TextEdit>, i: nat)
    ensures Inserted(FlatArray(lines, [x] + s), i) ==
            (if Offset(lines, x.range.start) == i then x.newText else "") + Inserted(FlatArray(lines, s), i)
  {
    assert FlatArray(lines, [x] + s)[1..] == FlatArray(lines, s);
  }

  /** Merging leaves at each offset what the group starting there makes of itself. */
  lemma {:induction false} MergedText(lines: seq<string>, es: seq<TextEdit>, i: nat)
    requires Legal(lines, es) && Sorted(es)
    ensures Inserted(FlatArray(lines, Merge(lines, es)), i) == GroupText(lines, es, i, "")
  {
    if es != [] {
      var init, e := es[..|es| - 1], es[|es| - 1];
      assert es == init + [e];
      MergedText(lines, init, i);
      MergeSeparates(lines, init);
      MergeSeparates(lines, es);
      GroupTextAppend(lines, init, e, i, "");
      GroupTextOne(lines, e, i, GroupText(lines, init, i, ""));
      var m := Merge(lines, init);
      var last := |m| - 1;
      if m != [] && Insertion(m[last]) && m[last].range.start == e.range.start {
        MergedIntoLast(lines, m, e, i);
      } else {
        MergedAsNew(lines, m, e, i);
      }
    }
  }

  lemma GroupTextOne(lines: seq<string>, e: TextEdit, i: nat, w: string)
    ensures GroupText(lines, [e], i, w) == if Offset(lines, e.range.start) == i then Absorbed(lines, w, e) else w
  {
    assert [e][1..] == [];
  }

  lemma MergedIntoLast(lines: seq<string>, m: seq<TextEdit>, e: TextEdit, i: nat)
    requires m != [] && StrictlyDescending(lines, m) && m[|m| - 1].range.start == e.range.start
    ensures var last := |m| - 1;
            var w := Inserted(FlatArray(lines, m), i);
            Inserted(FlatArray(lines, m[..last] + [TextEdit(e.range, Absorbed(lines, m[last].newText, e))]), i) ==
            if Offset(lines, e.range.start) == i then Absorbed(lines, w, e) else w
  {
    var last := |m| - 1;
    assert m == m[..last] + [m[last]];
    InsertedLast(lines, m[..last], TextEdit(e.range, Absorbed(lines, m[last].newText, e)), i);
    InsertedLast(lines, m[..last], m[last], i);
    OnlyLastHere(lines, m, i);
    assert forall t: string :: "" + t == t;
    assert forall t: string :: t + "" == t;
  }

  lemma MergedAsNew(lines: seq<string>, m: seq<TextEdit>, e: TextEdit, i: nat)
    requires StrictlyDescending(lines, m + [e])
    ensures var w := Inserted(FlatArray(lines, m), i);
            Inserted(FlatArray(lines, m + [e]), i) ==
            if Offset(lines, e.range.start) == i then Absorbed(lines, w, e) else w
  {
    InsertedLast(lines, m, e, i);
    OnlyLastHere(lines, m + [e], i);
    assert (m + [e])[..|m|] == m;
    AbsorbedAlone(lines, e);
    assert "" + e.newText == e.newText;
    var w := Inserted(FlatArray(lines, m), i);
    assert w + "" == w;
  }

  lemma AbsorbedAlone(lines: seq<string>, e: TextEdit)
    ensures Absorbed(lines, "", e) == e.newText
  {
    var s, t := e.range.start, e.range.end;
    if s.line == t.line < |lines| && s.character <= t.character {
      var removed := Slice(lines[s.line], s.character, t.character);
      assert "" + removed == removed && Drop(removed, t.character - s.character) == "";
    }
  }

  lemma OnlyLastHere(lines: seq<string>, m: seq<TextEdit>, i: nat)
    requires m != [] && StrictlyDescending(lines, m)
    ensures Offset(lines, m[|m| - 1].range.start) == i ==> Inserted(FlatArray(lines, m[..|m| - 1]), i) == ""
  {
    var last := |m| - 1;
    if Offset(lines, m[last].range.start) == i {
      assert forall k :: 0 <= k < last ==> Before(lines, m[last], m[k]);
      NothingInserted(FlatArray(lines, m[..last]), i);
    }
  }

  predicate DistinctStarts(fs: seq<FlatEdit>) {
    forall j, k :: 0 <= j < k < |fs| ==> fs[j].start != fs[k].start
  }

  lemma {:induction false} OnlyInserted(fs: seq<FlatEdit>, k: nat)
    requires k < |fs| && DistinctStarts(fs)
    ensures Inserted(fs, fs[k].start) == fs[k].text
  {
    if k == 0 {
      NothingInserted(fs[1..], fs[0].start);
      assert fs[0].text + "" == fs[0].text;
    } else {
      OnlyInserted(fs[1..], k - 1);
      assert fs[0].start != fs[k].start;
    }
  }

  predicate Mirrored(fs: seq<FlatEdit>, rs: seq<FlatEdit>) {
    |rs| == |fs| && forall k :: 0 <= k < |fs| ==> rs[|fs| - 1 - k] == fs[k]
  }

  lemma MirroredInsertion(fs: seq<FlatEdit>, rs: seq<FlatEdit>, k: nat)
    requires DistinctStarts(fs) && DistinctStarts(rs) && Mirrored(fs, rs) && k < |fs|
    ensures Inserted(fs, fs[k].start) == Inserted(rs, fs[k].start)
  {
    var j := |fs| - 1 - k;
    assert rs[j] == fs[k];
    OnlyInserted(fs, k);
    OnlyInserted(rs, j);
  }

  lemma MirroredInserts(fs: seq<FlatEdit>, rs: seq<FlatEdit>, i: nat)
    requires DistinctStarts(fs) && DistinctStarts(rs) && Mirrored(fs, rs) && Mirrored(rs, fs)
    ensures Inserted(fs, i) == Inserted(rs, i)
  {
    if k :| 0 <= k < |fs| && fs[k].start == i {
      MirroredInsertion(fs, rs, k);
    } else {
      forall k | 0 <= k < |rs| ensures rs[k].start != i {
        assert fs[|rs| - 1 - k] == rs[k];
      }
      NothingInserted(fs, i);
      NothingInserted(rs, i);
    }
  }

  lemma ReverseMirrors(lines: seq<string>, es: seq<TextEdit>)
    ensures Mirrored(FlatArray(lines, es), FlatArray(lines, Reverse(es)))
    ensures Mirrored(FlatArray(lines, Reverse(es)), FlatArray(lines, es))
    ensures DistinctStarts(FlatArray(lines, es)) ==> DistinctStarts(FlatArray(lines, Reverse(es)))
  {
  }

  lemma SameHead(a: string, b: string, c: string, d: string)
    requires |a| == |c| && a + b == c + d
    ensures a == c && b == d
  {
    assert a == (a + b)[..|a|] && c == (c + d)[..|c|];
    assert b == (a + b)[|a|..] && d == (c + d)[|c|..];
  }

}

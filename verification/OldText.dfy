/** The text an edit removes, as the rename service records it for each edit, and what follows
    for whole arrays of edits: how the length changes, and that putting the old texts back
    changes nothing. */
module OldText {
  import opened Lines
  import opened TextEdits
  import opened TextEditArrays
  import opened BottomUp

  function Between(content: string, range: Range): string
    requires WellFormed(range)
  {
    var lines := Split(content, NEWLINE);
    JoinSplit(content, NEWLINE);
    OffsetMonotone(lines, range.start, range.end);
    TextAfter(lines, range.end);
    content[Offset(lines, range.start)..Offset(lines, range.end)]
  }

  /** The parts of the lines from the start of the range up to line i. */
  function Pieces(lines: seq<string>, start: Position, i: nat): seq<string>
    requires start.line < i <= |lines|
  {
    [Drop(lines[start.line], start.character)] + lines[start.line + 1..i]
  }

  /** What the loop over the lines of the range has collected in front of line i. */
  function Collected(lines: seq<string>, range: Range, i: nat): seq<string>
    requires range.start.line <= i <= |lines| && i <= range.end.line + 1 && range.start.line < range.end.line
  {
    if i == range.start.line then []
    else if i <= range.end.line then Pieces(lines, range.start, i)
    else Pieces(lines, range.start, range.end.line) + [Take(lines[range.end.line], range.end.character)]
  }

  /** What line i contributes. */
  function Piece(lines: seq<string>, range: Range, i: nat): string
    requires i < |lines|
  {
    if i == range.start.line then Drop(lines[i], range.start.character)
    else if i == range.end.line then Take(lines[i], range.end.character)
    else lines[i]
  }

  lemma CollectedGrows(lines: seq<string>, range: Range, i: nat)
    requires range.start.line <= i < |lines| && i <= range.end.line && range.start.line < range.end.line
    ensures Collected(lines, range, i + 1) == Collected(lines, range, i) + [Piece(lines, range, i)]
  {
  }

  method ExtractTextAtRange(content: string, range: Range) returns (text: string)
    ensures text == if WellFormed(range) then Between(content, range) else ""
  {
    var lines := Split(content, NEWLINE);
    var start, end := range.start, range.end;
    if start.line == end.line {
      OnOneLine(content, range);
      if start.line < |lines| {
        return Drop(Take(lines[start.line], end.character), start.character);
      }
      return "";
    }
    var result := [];
    var i := start.line;
    while i < end.line + 1 && i < |lines|
      invariant start.line <= i
      invariant start.line < end.line && start.line < |lines| ==>
                  i <= |lines| && i <= end.line + 1 && result == Collected(lines, range, i)
      invariant !(start.line < end.line && start.line < |lines|) ==> result == []
    {
      if start.line < end.line {
        CollectedGrows(lines, range, i);
      }
      if i == start.line {
        result := result + [Drop(lines[i], start.character)];
      } else if i == end.line {
        result := result + [Take(lines[i], end.character)];
      } else {
        result := result + [lines[i]];
      }
      i := i + 1;
    }
    text := Join(result, NEWLINE);
    if start.line < end.line {
      AcrossLines(content, range);
    }
  }

  lemma OnOneLine(content: string, range: Range)
    requires range.start.line == range.end.line
    ensures var lines := Split(content, NEWLINE);
            (if WellFormed(range) then Between(content, range) else "") ==
            (if range.start.line < |lines|
             then Drop(Take(lines[range.start.line], range.end.character), range.start.character) else "")
  {
    var lines := Split(content, NEWLINE);
    JoinSplit(content, NEWLINE);
    if WellFormed(range) && range.start.line < |lines| {
      BetweenOnOneLine(lines, range);
    }
  }

  lemma AcrossLines(content: string, range: Range)
    requires range.start.line < range.end.line
    ensures var lines := Split(content, NEWLINE);
            Between(content, range) ==
            (if range.start.line >= |lines| then ""
             else Join(Collected(lines, range, if range.end.line < |lines| then range.end.line + 1 else |lines|), NEWLINE))
  {
    JoinSplit(content, NEWLINE);
    BetweenAcrossLines(Split(content, NEWLINE), range);
  }

  lemma BetweenOnOneLine(lines: seq<string>, range: Range)
    requires range.start.line == range.end.line < |lines| && range.start.character <= range.end.character
    ensures Offset(lines, range.start) <= Offset(lines, range.end) <= |Join(lines, NEWLINE)|
    ensures Join(lines, NEWLINE)[Offset(lines, range.start)..Offset(lines, range.end)]
         == Drop(Take(lines[range.start.line], range.end.character), range.start.character)
  {
    OffsetMonotone(lines, range.start, range.end);
    TextBefore(lines, range.start);
    TextBefore(lines, range.end);
    var lead := Lead(lines[..range.end.line], NEWLINE);
    var line := lines[range.end.line];
    var to := Take(line, range.end.character);
    assert Join(lines, NEWLINE)[..Offset(lines, range.end)][Offset(lines, range.start)..]
        == (lead + to)[|lead| + |Take(line, range.start.character)|..];
  }

  lemma BetweenAcrossLines(lines: seq<string>, range: Range)
    requires range.start.line < range.end.line
    ensures Offset(lines, range.start) <= Offset(lines, range.end) <= |Join(lines, NEWLINE)|
    ensures Join(lines, NEWLINE)[Offset(lines, range.start)..Offset(lines, range.end)] ==
            if range.start.line >= |lines| then ""
            else Join(Collected(lines, range, if range.end.line < |lines| then range.end.line + 1 else |lines|), NEWLINE)
  {
    var text := Join(lines, NEWLINE);
    var start, end := range.start, range.end;
    OffsetMonotone(lines, start, end);
    TextAfter(lines, start);
    TextAfter(lines, end);
    if start.line < |lines| {
      TextBefore(lines, start);
      var first, rest := lines[start.line], lines[start.line + 1..];
      if end.line < |lines| {
        TextBefore(lines, end);
        PiecesJoin(lines, range);
        CutPrefix(text[..Offset(lines, end)], text[..Offset(lines, start)],
                  Join(Pieces(lines, start, end.line) + [Take(lines[end.line], end.character)], NEWLINE));
        assert text[..Offset(lines, end)][Offset(lines, start)..] == text[Offset(lines, start)..Offset(lines, end)];
      } else {
        assert Pieces(lines, start, |lines|) == [Drop(first, start.character)] + rest;
        assert text[Offset(lines, start)..Offset(lines, end)] == text[Offset(lines, start)..];
      }
    }
  }

  lemma CutPrefix(s: string, a: string, b: string)
    requires s == a + b
    ensures s[|a|..] == b
  {
  }

  lemma PiecesJoin(lines: seq<string>, range: Range)
    requires range.start.line < range.end.line < |lines|
    ensures var last := Take(lines[range.end.line], range.end.character);
            Lead(lines[..range.end.line], NEWLINE) + last ==
            Lead(lines[..range.start.line], NEWLINE) + Take(lines[range.start.line], range.start.character) +
            Join(Pieces(lines, range.start, range.end.line) + [last], NEWLINE)
  {
    var s, e, c := range.start.line, range.end.line, range.start.character;
    var last := Take(lines[e], range.end.character);
    var lead, head, more := Lead(lines[..s], NEWLINE), Take(lines[s], c), Drop(lines[s], c);
    var middle := lines[s + 1..e] + [last];
    var tail := Tail(middle, NEWLINE);
    assert lines[..e] == lines[..s] + lines[s..e];
    LeadAppend(lines[..s], lines[s..e], NEWLINE);
    JoinLead(lines[s..e], [last], NEWLINE);
    assert Join([last], NEWLINE) == last;
    assert lines[s..e] + [last] == [lines[s]] + middle;
    assert Join([lines[s]] + middle, NEWLINE) == lines[s] + tail;
    assert Pieces(lines, range.start, e) + [last] == [more] + middle;
    assert Join([more] + middle, NEWLINE) == more + tail;
    assert lines[s] == head + more;
    Associate(lead, head, more, tail);
    AssociateLead(lead, Lead(lines[s..e], NEWLINE), last);
  }

  lemma Associate(a: string, b: string, c: string, d: string)
    ensures a + ((b + c) + d) == (a + b) + (c + d)
  {
  }

  lemma AssociateLead(a: string, b: string, c: string)
    ensures (a + b) + c == a + (b + c)
  {
  }

  // ----- consequences for whole arrays

  /** By how much an array of edits lengthens the text: new texts minus replaced stretches. */
  function Growth(lines: seq<string>, es: seq<TextEdit>): int {
    if es == [] then 0
    else |es[0].newText| - (Offset(lines, es[0].range.end) - Offset(lines, es[0].range.start)) + Growth(lines, es[1..])
  }

  lemma {:induction false} GrowthAppend(lines: seq<string>, es: seq<TextEdit>, e: TextEdit)
    ensures Growth(lines, es + [e]) == Growth(lines, es) + Growth(lines, [e])
  {
    if es != [] {
      GrowthAppend(lines, es[1..], e);
      assert (es + [e])[1..] == es[1..] + [e];
    } else {
      assert es + [e] == [e];
    }
  }

  lemma {:induction false} GrowthInsert(lines: seq<string>, x: TextEdit, s: seq<TextEdit>)
    ensures Growth(lines, Insert(x, s)) == Growth(lines, [x]) + Growth(lines, s)
  {
    if !(s == [] || AtOrBefore(s[0].range.start, x.range.start)) {
      GrowthInsert(lines, x, s[1..]);
      assert ([s[0]] + Insert(x, s[1..]))[1..] == Insert(x, s[1..]);
    } else {
      assert ([x] + s)[1..] == s;
    }
  }

  lemma {:induction false} GrowthSort(lines: seq<string>, es: seq<TextEdit>)
    ensures Growth(lines, SortDescending(es)) == Growth(lines, es)
  {
    if es != [] {
      GrowthSort(lines, es[1..]);
      GrowthInsert(lines, es[0], SortDescending(es[1..]));
    }
  }

  /** The effect of the last edit of a descending array on the text. */
  lemma LastEdit(orig: seq<string>, es: seq<TextEdit>)
    requires orig != [] && es != [] && Descending(orig, es)
    ensures var init, e := es[..|es| - 1], es[|es| - 1];
            var text := Join(ApplyAll(orig, init), NEWLINE);
            Offset(orig, e.range.start) <= Offset(orig, e.range.end) <= |text| &&
            Join(ApplyAll(orig, es), NEWLINE) ==
            Replace(text, Offset(orig, e.range.start), Offset(orig, e.range.end), e.newText)
  {
    var init, e := es[..|es| - 1], es[|es| - 1];
    assert es == init + [e];
    DescendingIsSimultaneous(orig, init);
    StepInPlace(orig, ApplyAll(orig, init), init, e);
    ApplyEditReplaces(ApplyAll(orig, init), e);
  }

  lemma {:induction false} DescendingGrowth(orig: seq<string>, es: seq<TextEdit>)
    requires orig != [] && Descending(orig, es)
    ensures |Join(ApplyAll(orig, es), NEWLINE)| == |Join(orig, NEWLINE)| + Growth(orig, es)
  {
    if es != [] {
      var init, e := es[..|es| - 1], es[|es| - 1];
      assert es == init + [e];
      DescendingGrowth(orig, init);
      LastEdit(orig, es);
      GrowthAppend(orig, init, e);
    }
  }

  lemma ReplaceSame(s: string, from: nat, to: nat)
    requires from <= to <= |s|
    ensures Replace(s, from, to, s[from..to]) == s
  {
  }

  lemma {:induction false} DescendingPutBack(content: string, es: seq<TextEdit>)
    requires Descending(Split(content, NEWLINE), es)
    requires forall k :: 0 <= k < |es| ==> es[k].newText == Between(content, es[k].range)
    ensures Join(ApplyAll(Split(content, NEWLINE), es), NEWLINE) == content
  {
    var lines := Split(content, NEWLINE);
    JoinSplit(content, NEWLINE);
    if es != [] {
      var e := es[|es| - 1];
      DescendingPutBack(content, es[..|es| - 1]);
      LastEdit(lines, es);
      ReplaceSame(content, Offset(lines, e.range.start), Offset(lines, e.range.end));
      assert e.newText == Between(content, e.range);
    }
  }

  /** Applying an array changes the length by the lengths of the new texts minus those of the
      replaced stretches. */
  lemma EditedLength(content: string, es: seq<TextEdit>)
    requires Disjoint(Split(content, NEWLINE), es)
    ensures |Edited(content, es)| == |content| + Growth(Split(content, NEWLINE), es)
  {
    var lines := Split(content, NEWLINE);
    JoinSplit(content, NEWLINE);
    DisjointSorts(lines, es);
    DescendingGrowth(lines, SortDescending(es));
    GrowthSort(lines, es);
  }

  /** Writing the recorded old texts back over their own ranges gives the original content. */
  lemma OldTextsChangeNothing(content: string, es: seq<TextEdit>)
    requires Disjoint(Split(content, NEWLINE), es)
    requires forall k :: 0 <= k < |es| ==> es[k].newText == Between(content, es[k].range)
    ensures Edited(content, es) == content
  {
    var lines, sorted := Split(content, NEWLINE), SortDescending(es);
    DisjointSorts(lines, es);
    forall k | 0 <= k < |sorted| ensures sorted[k].newText == Between(content, sorted[k].range) {
      assert sorted[k] in sorted;
    }
    DescendingPutBack(content, sorted);
  }

  // ----- undoing

  /** Replacing one new text by the recorded old text, at the offset its range had in the original. */
  function UndoneOne(start: nat, inserted: string, oldText: string, text: string): string {
    if start + |inserted| <= |text| then Replace(text, start, start + |inserted|, oldText) else text
  }

  /** The same for an array in descending order, from the first edit of the text to the last. */
  function Undone(content: string, es: seq<TextEdit>, text: string): string
    requires forall k :: 0 <= k < |es| ==> WellFormed(es[k].range)
    decreases |es|
  {
    if es == [] then text
    else
      var e := es[|es| - 1];
      var start := Offset(Split(content, NEWLINE), e.range.start);
      Undone(content, es[..|es| - 1], UndoneOne(start, e.newText, Between(content, e.range), text))
  }

  /** Text below the edits made so far is still the original. */
  lemma UnchangedBelow(orig: seq<string>, init: seq<TextEdit>, e: TextEdit)
    requires orig != [] && Descending(orig, init + [e])
    ensures var content, text, end := Join(orig, NEWLINE), Join(ApplyAll(orig, init), NEWLINE), Offset(orig, e.range.end);
            end <= |content| && end <= |text| && text[..end] == content[..end]
  {
    var content, end := Join(orig, NEWLINE), Offset(orig, e.range.end);
    DescendingPrefix(orig, init, e);
    DescendingIsSimultaneous(orig, init);
    StepInPlace(orig, ApplyAll(orig, init), init, e);
    TextAfter(orig, e.range.end);
    KeptBelow(content, FlatArray(orig, Reverse(init)), 0, end);
    assert content[0..end] == content[..end];
  }

  lemma ReplaceBack(content: string, before: string, from: nat, to: nat, inserted: string)
    requires from <= to <= |before| && to <= |content| && before[..to] == content[..to]
    ensures var changed := Replace(before, from, to, inserted);
            from + |inserted| <= |changed| && Replace(changed, from, from + |inserted|, content[from..to]) == before
  {
    var changed := Replace(before, from, to, inserted);
    assert changed[..from] == before[..from] && changed[from + |inserted|..] == before[to..];
    assert content[from..to] == content[..to][from..] == before[..to][from..] == before[from..to];
  }

  lemma BetweenIsStretch(content: string, lines: seq<string>, range: Range)
    requires lines == Split(content, NEWLINE) && WellFormed(range)
    ensures Offset(lines, range.start) <= Offset(lines, range.end) <= |content|
    ensures Between(content, range) == content[Offset(lines, range.start)..Offset(lines, range.end)]
  {
    JoinSplit(content, NEWLINE);
    OffsetMonotone(lines, range.start, range.end);
    TextAfter(lines, range.end);
  }

  lemma UndoLast(content: string, lines: seq<string>, init: seq<TextEdit>, e: TextEdit)
    requires lines == Split(content, NEWLINE) && Descending(lines, init + [e]) && WellFormed(e.range)
    ensures UndoneOne(Offset(lines, e.range.start), e.newText, Between(content, e.range),
                      Join(ApplyAll(lines, init + [e]), NEWLINE)) == Join(ApplyAll(lines, init), NEWLINE)
  {
    var before, start, end :=
      Join(ApplyAll(lines, init), NEWLINE), Offset(lines, e.range.start), Offset(lines, e.range.end);
    JoinSplit(content, NEWLINE);
    assert (init + [e])[..|init|] == init;
    LastEdit(lines, init + [e]);
    UnchangedBelow(lines, init, e);
    BetweenIsStretch(content, lines, e.range);
    ReplaceBack(content, before, start, end, e.newText);
  }

  lemma {:induction false} DescendingUndone(content: string, es: seq<TextEdit>)
    requires Descending(Split(content, NEWLINE), es)
    ensures Undone(content, es, Join(ApplyAll(Split(content, NEWLINE), es), NEWLINE)) == content
    decreases |es|
  {
    if es == [] {
      JoinSplit(content, NEWLINE);
    } else {
      var init, e := es[..|es| - 1], es[|es| - 1];
      assert es == init + [e];
      DescendingPrefix(Split(content, NEWLINE), init, e);
      UndoLast(content, Split(content, NEWLINE), init, e);
      DescendingUndone(content, init);
    }
  }

  /** After an array of edits, writing the recorded old texts back over the new ones gives the original. */
  lemma OldTextsUndo(content: string, es: seq<TextEdit>)
    requires Disjoint(Split(content, NEWLINE), es)
    ensures var sorted := SortDescending(es);
            (forall k :: 0 <= k < |sorted| ==> WellFormed(sorted[k].range)) &&
            Undone(content, sorted, Edited(content, es)) == content
  {
    DisjointSorts(Split(content, NEWLINE), es);
    DescendingUndone(content, SortDescending(es));
  }
}

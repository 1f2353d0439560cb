/** Text edits of one file: the meaning LSP 3.17 gives to a `TextEdit[]`, and the bottom-up
    editing of a list of lines that the rename service uses in its place. */
module TextEdits {
  import opened Lines

  const NEWLINE := '\n'

  datatype Position = Position(line: nat, character: nat)

  datatype Range = Range(start: Position, end: Position)

  datatype TextEdit = TextEdit(range: Range, newText: string)

  predicate AtOrBefore(p: Position, q: Position) {
    p.line < q.line || (p.line == q.line && p.character <= q.character)
  }

  predicate WellFormed(r: Range) {
    AtOrBefore(r.start, r.end)
  }

  // ----- Python slices with non-negative bounds

  function Take(s: string, n: nat): string {
    if n <= |s| then s[..n] else s
  }

  function Drop(s: string, n: nat): string {
    if n <= |s| then s[n..] else ""
  }

  // ----- positions as offsets into the text

  /** The flat offset of a position. A character beyond the end of its line counts as the end
      of the line, a line beyond the last one as the end of the text. */
  function Offset(lines: seq<string>, p: Position): nat {
    if p.line < |lines|
    then |Lead(lines[..p.line], NEWLINE)| + |Take(lines[p.line], p.character)|
    else |Join(lines, NEWLINE)|
  }

  lemma OffsetOnLine(lines: seq<string>, p: Position)
    requires p.line < |lines|
    ensures Join(lines, NEWLINE)
         == Lead(lines[..p.line], NEWLINE) + lines[p.line] + Tail(lines[p.line + 1..], NEWLINE)
    ensures Offset(lines, p) <= |Join(lines, NEWLINE)|
  {
    JoinAt(lines, p.line, NEWLINE);
  }

  lemma LeadGrows(lines: seq<string>, k: nat, m: nat)
    requires k < m <= |lines|
    ensures |Lead(lines[..k], NEWLINE)| + |lines[k]| + 1 <= |Lead(lines[..m], NEWLINE)|
  {
    assert lines[..m] == lines[..k] + lines[k..m];
    LeadAppend(lines[..k], lines[k..m], NEWLINE);
  }

  lemma OffsetMonotone(lines: seq<string>, p: Position, q: Position)
    requires AtOrBefore(p, q)
    ensures Offset(lines, p) <= Offset(lines, q)
    ensures p.line < q.line < |lines| ==> Offset(lines, p) < Offset(lines, q)
  {
    if p.line < |lines| {
      OffsetOnLine(lines, p);
      if p.line < q.line < |lines| {
        LeadGrows(lines, p.line, q.line);
      }
    }
  }

  function Replace(s: string, from: nat, to: nat, text: string): string
    requires from <= to <= |s|
  {
    s[..from] + text + s[to..]
  }

  lemma Regroup(a: string, b: string, c: string, d: string, e: string)
    ensures a + (b + c + d) + e == (a + b) + c + (d + e)
  {
  }

  lemma ReplaceMiddle(s: string, before: string, middle: string, after: string, from: nat, to: nat, text: string)
    requires s == before + middle + after
    requires from == |before| && to == from + |middle|
    ensures Replace(s, from, to, text) == before + text + after
  {
    assert s[..from] == before;
    assert s[to..] == after;
  }

  // ----- one edit on the list of lines

  /** One pass of the loop over the sorted records. */
  function ApplyEdit(lines: seq<string>, e: TextEdit): seq<string> {
    var s, t := e.range.start, e.range.end;
    if s.line >= |lines| then lines
    else if s.line == t.line then
      var line := lines[s.line];
      lines[s.line := Take(line, s.character) + e.newText + Drop(line, t.character)]
    else
      lines[..s.line] + Spliced(Take(lines[s.line], s.character), e.newText, Suffix(lines, t)) +
      LinesAfter(lines, t)
  }

  /** What the multi-line branch keeps of the line the range ends on. */
  function Suffix(lines: seq<string>, end: Position): string {
    if end.line < |lines| then Drop(lines[end.line], end.character) else ""
  }

  function LinesAfter(lines: seq<string>, end: Position): seq<string> {
    if end.line < |lines| then lines[end.line + 1..] else []
  }

  /** The lines of the new text between what is kept of the first and of the last line. */
  function Spliced(prefix: string, text: string, suffix: string): (parts: seq<string>)
    ensures |parts| >= 1 && prefix <= parts[0]
  {
    var parts := Split(text, NEWLINE);
    var withPrefix := parts[0 := prefix + parts[0]];
    withPrefix[|parts| - 1 := withPrefix[|parts| - 1] + suffix]
  }

  lemma {:induction false} SplicedJoins(prefix: string, text: string, suffix: string)
    ensures Join(Spliced(prefix, text, suffix), NEWLINE) == prefix + text + suffix
  {
    var parts, spliced := Split(text, NEWLINE), Spliced(prefix, text, suffix);
    JoinSplit(text, NEWLINE);
    var last := |parts| - 1;
    JoinAt(parts, last, NEWLINE);
    JoinAt(spliced, last, NEWLINE);
    if last > 0 {
      LeadWithPrefix(prefix, parts[0], parts[1..last]);
      assert parts[..last] == [parts[0]] + parts[1..last];
      assert spliced[..last] == [prefix + parts[0]] + parts[1..last];
    }
  }

  lemma LeadWithPrefix(prefix: string, first: string, more: seq<string>)
    ensures Lead([prefix + first] + more, NEWLINE) == prefix + Lead([first] + more, NEWLINE)
  {
    assert ([prefix + first] + more)[1..] == more && ([first] + more)[1..] == more;
  }

  /** A text cut at line k. */
  lemma JoinFrom(lines: seq<string>, k: nat, x: seq<string>)
    requires k <= |lines| && x != []
    ensures Join(lines[..k] + x, NEWLINE) == Lead(lines[..k], NEWLINE) + Join(x, NEWLINE)
  {
    JoinLead(lines[..k], x, NEWLINE);
  }

  lemma TextBefore(lines: seq<string>, p: Position)
    requires p.line < |lines|
    ensures Offset(lines, p) <= |Join(lines, NEWLINE)|
    ensures Join(lines, NEWLINE)[..Offset(lines, p)]
         == Lead(lines[..p.line], NEWLINE) + Take(lines[p.line], p.character)
  {
    OffsetOnLine(lines, p);
  }

  lemma TextAfter(lines: seq<string>, p: Position)
    ensures Offset(lines, p) <= |Join(lines, NEWLINE)|
    ensures Join(lines, NEWLINE)[Offset(lines, p)..] == Suffix(lines, p) + Tail(LinesAfter(lines, p), NEWLINE)
  {
    if p.line < |lines| {
      OffsetOnLine(lines, p);
    }
  }

  lemma JoinAcrossLines(lines: seq<string>, e: TextEdit)
    requires e.range.start.line != e.range.end.line && e.range.start.line < |lines|
    ensures Join(ApplyEdit(lines, e), NEWLINE)
         == Lead(lines[..e.range.start.line], NEWLINE) +
            (Take(lines[e.range.start.line], e.range.start.character) + e.newText + Suffix(lines, e.range.end) +
             Tail(LinesAfter(lines, e.range.end), NEWLINE))
  {
    var k := e.range.start.line;
    var head, suffix := Take(lines[k], e.range.start.character), Suffix(lines, e.range.end);
    var rest := LinesAfter(lines, e.range.end);
    var spliced := Spliced(head, e.newText, suffix);
    assert ApplyEdit(lines, e) == lines[..k] + (spliced + rest);
    JoinFrom(lines, k, spliced + rest);
    JoinAppend(spliced, rest, NEWLINE);
    SplicedJoins(head, e.newText, suffix);
  }

  /** Whatever the range, also one that ends before it starts: what lies before its start, the new text, and
      what lies behind its end. Nothing happens behind the last line. */
  lemma ApplyEditSplices(lines: seq<string>, e: TextEdit)
    ensures var text, from, to := Join(lines, NEWLINE), Offset(lines, e.range.start), Offset(lines, e.range.end);
            from <= |text| && to <= |text| &&
            Join(ApplyEdit(lines, e), NEWLINE) ==
              if e.range.start.line < |lines| then text[..from] + e.newText + text[to..] else text
  {
    var k := e.range.start.line;
    TextAfter(lines, e.range.start);
    TextAfter(lines, e.range.end);
    if k < |lines| {
      TextBefore(lines, e.range.start);
      if k == e.range.end.line {
        SpliceOnOneLine(lines, e);
      } else {
        JoinAcrossLines(lines, e);
        RegroupRight(Lead(lines[..k], NEWLINE), Take(lines[k], e.range.start.character), e.newText,
                     Suffix(lines, e.range.end), Tail(LinesAfter(lines, e.range.end), NEWLINE));
      }
    }
  }

  lemma RegroupRight(a: string, b: string, c: string, d: string, e: string)
    ensures a + (b + c + d + e) == (a + b) + c + (d + e)
  {
  }

  lemma SpliceOnOneLine(lines: seq<string>, e: TextEdit)
    requires e.range.start.line == e.range.end.line < |lines|
    ensures Join(ApplyEdit(lines, e), NEWLINE) ==
            (Lead(lines[..e.range.start.line], NEWLINE) + Take(lines[e.range.start.line], e.range.start.character)) +
            e.newText + (Suffix(lines, e.range.end) + Tail(LinesAfter(lines, e.range.end), NEWLINE))
  {
    var k, edited := e.range.start.line, ApplyEdit(lines, e);
    JoinAt(edited, k, NEWLINE);
    assert edited[..k] == lines[..k] && edited[k + 1..] == lines[k + 1..];
    Regroup(Lead(lines[..k], NEWLINE), Take(lines[k], e.range.start.character), e.newText,
            Suffix(lines, e.range.end), Tail(LinesAfter(lines, e.range.end), NEWLINE));
  }

  /** One edit of the list of lines replaces exactly the addressed stretch of the text. */
  lemma ApplyEditReplaces(lines: seq<string>, e: TextEdit)
    requires WellFormed(e.range) && e.range.start.line < |lines|
    ensures Offset(lines, e.range.start) <= Offset(lines, e.range.end) <= |Join(lines, NEWLINE)|
    ensures Join(ApplyEdit(lines, e), NEWLINE)
         == Replace(Join(lines, NEWLINE), Offset(lines, e.range.start), Offset(lines, e.range.end), e.newText)
  {
    OffsetMonotone(lines, e.range.start, e.range.end);
    ApplyEditSplices(lines, e);
  }
}

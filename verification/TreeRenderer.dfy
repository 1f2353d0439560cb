/** Rendering of a symbol forest as text with tree connectors. */
module TreeRenderer {
  import opened Lines
  import opened Sequences

  /** A symbol, as the line it is rendered to. */
  datatype Node = Node(line: string, children: seq<Node>)

  const CONNECTOR_INTERMEDIATE := "\U{251C}\U{2500}\U{2500}"
  const CONNECTOR_LAST := "\U{2514}\U{2500}\U{2500}"
  const PREFIX_CONTINUE := "\U{2502}   "
  const PREFIX_TERMINATE := "    "
  const ROOT_PREFIX := "  "
  const NO_SYMBOLS := "No symbols found."

  function Connector(last: bool): string {
    if last then CONNECTOR_LAST else CONNECTOR_INTERMEDIATE
  }

  function ChildPrefix(prefix: string, last: bool): string {
    if last then prefix + PREFIX_TERMINATE else prefix + PREFIX_CONTINUE
  }

  function Line(prefix: string, last: bool, content: string): string {
    prefix + Connector(last) + " " + content
  }

  /** A node's line and the lines below it. */
  function Block(node: Node, prefix: string, last: bool): seq<string>
    decreases node
  {
    [Line(prefix, last, node.line)] + Render(node.children, ChildPrefix(prefix, last))
  }

  function Render(nodes: seq<Node>, prefix: string): seq<string>
    decreases nodes
  {
    if nodes == [] then [] else Block(nodes[0], prefix, |nodes| == 1) + Render(nodes[1..], prefix)
  }

  method RenderTree(nodes: seq<Node>, prefix: string) returns (lines: seq<string>)
    ensures lines == Render(nodes, prefix)
    decreases nodes
  {
    if nodes == [] {
      return [];
    }
    lines := [];
    for i := 0 to |nodes|
      invariant lines + Render(nodes[i..], prefix) == Render(nodes, prefix)
    {
      var node, last := nodes[i], i == |nodes| - 1;
      ghost var done := lines;
      lines := lines + [Line(prefix, last, node.line)];
      if node.children != [] {
        var childLines := RenderTree(node.children, ChildPrefix(prefix, last));
        lines := lines + childLines;
      }
      AddBlock(nodes, prefix, i, done, lines);
    }
  }

  lemma AddBlock(nodes: seq<Node>, prefix: string, i: nat, done: seq<string>, lines: seq<string>)
    requires i < |nodes| && done + Render(nodes[i..], prefix) == Render(nodes, prefix)
    requires var last := i == |nodes| - 1;
             lines == done + [Line(prefix, last, nodes[i].line)] +
                      Render(nodes[i].children, ChildPrefix(prefix, last))
    ensures lines + Render(nodes[i + 1..], prefix) == Render(nodes, prefix)
  {
    var last := i == |nodes| - 1;
    var block := Block(nodes[i], prefix, last);
    RenderFrom(nodes, prefix, i);
    Assoc(done, [Line(prefix, last, nodes[i].line)], Render(nodes[i].children, ChildPrefix(prefix, last)));
    Assoc(done, block, Render(nodes[i + 1..], prefix));
  }

  lemma RenderFrom(nodes: seq<Node>, prefix: string, i: nat)
    requires i < |nodes|
    ensures Render(nodes[i..], prefix) == Block(nodes[i], prefix, i == |nodes| - 1) + Render(nodes[i + 1..], prefix)
  {
    assert nodes[i..][1..] == nodes[i + 1..];
  }

  // ----- reading a rendering back

  /** Whether a line belongs below a node whose connector stands at column n. */
  predicate IsBelow(line: string, n: nat) {
    |line| > n && (line[n] == ' ' || line[n] == '\U{2502}')
  }

  predicate AllBelow(lines: seq<string>, n: nat) {
    forall k :: 0 <= k < |lines| ==> IsBelow(lines[k], n)
  }

  function Below(lines: seq<string>, n: nat): (k: nat)
    ensures k <= |lines|
  {
    if lines != [] && IsBelow(lines[0], n) then 1 + Below(lines[1..], n) else 0
  }

  /** The forest of lines whose outermost connectors stand at column n. */
  function Parse(lines: seq<string>, n: nat): seq<Node>
    decreases |lines|
  {
    if lines == [] then []
    else
      var k := Below(lines[1..], n);
      [Node(if |lines[0]| >= n + 4 then lines[0][n + 4..] else "", Parse(lines[1..1 + k], n + 4))] +
      Parse(lines[1 + k..], n)
  }

  lemma {:induction false} LinesStartWithPrefix(nodes: seq<Node>, prefix: string, k: nat)
    requires k < |Render(nodes, prefix)|
    ensures |Render(nodes, prefix)[k]| >= |prefix| && Render(nodes, prefix)[k][..|prefix|] == prefix
    decreases nodes
  {
    var last := |nodes| == 1;
    var below := Render(nodes[0].children, ChildPrefix(prefix, last));
    if 0 < k <= |below| {
      LinesStartWithPrefix(nodes[0].children, ChildPrefix(prefix, last), k - 1);
      var line := below[k - 1];
      assert line[..|prefix|] == line[..|prefix| + 4][..|prefix|] == prefix;
    } else if k > |below| {
      LinesStartWithPrefix(nodes[1..], prefix, k - 1 - |below|);
    }
  }

  lemma ChildrenAreBelow(children: seq<Node>, prefix: string, last: bool)
    ensures AllBelow(Render(children, ChildPrefix(prefix, last)), |prefix|)
  {
    var below := Render(children, ChildPrefix(prefix, last));
    forall k | 0 <= k < |below| ensures IsBelow(below[k], |prefix|) {
      LinesStartWithPrefix(children, ChildPrefix(prefix, last), k);
      assert below[k][|prefix|] == below[k][..|prefix| + 4][|prefix|];
    }
  }

  lemma SiblingIsNotBelow(prefix: string, last: bool, content: string)
    ensures var line := Line(prefix, last, content);
            |line| >= |prefix| + 4 && line[|prefix| + 4..] == content && !IsBelow(line, |prefix|)
  {
    assert Line(prefix, last, content)[|prefix|] == Connector(last)[0];
  }

  lemma FirstIsNotBelow(nodes: seq<Node>, prefix: string)
    requires nodes != []
    ensures var lines := Render(nodes, prefix); lines != [] && !IsBelow(lines[0], |prefix|)
  {
    SiblingIsNotBelow(prefix, |nodes| == 1, nodes[0].line);
    assert Render(nodes, prefix) == Block(nodes[0], prefix, |nodes| == 1) + Render(nodes[1..], prefix);
  }

  lemma {:induction false} BelowAll(below: seq<string>, rest: seq<string>, n: nat)
    requires AllBelow(below, n)
    requires rest != [] ==> !IsBelow(rest[0], n)
    ensures Below(below + rest, n) == |below|
  {
    if below == [] {
      assert below + rest == rest;
    } else {
      BelowAll(below[1..], rest, n);
      assert (below + rest)[1..] == below[1..] + rest;
    }
  }

  lemma ParseBlock(first: string, below: seq<string>, rest: seq<string>, n: nat)
    requires |first| >= n + 4
    requires Below(below + rest, n) == |below|
    ensures Parse([first] + below + rest, n) == [Node(first[n + 4..], Parse(below, n + 4))] + Parse(rest, n)
  {
    var lines := [first] + below + rest;
    assert lines[1..] == below + rest && lines[1..1 + |below|] == below && lines[1 + |below|..] == rest;
  }

  lemma RestIsNotBelow(nodes: seq<Node>, prefix: string)
    requires nodes != []
    ensures var rest := Render(nodes[1..], prefix); rest != [] ==> !IsBelow(rest[0], |prefix|)
  {
    if |nodes| > 1 {
      FirstIsNotBelow(nodes[1..], prefix);
    }
  }

  lemma ParseFirst(nodes: seq<Node>, prefix: string)
    requires nodes != []
    ensures var last, n := |nodes| == 1, |prefix|;
            Parse(Render(nodes, prefix), n) ==
            [Node(nodes[0].line, Parse(Render(nodes[0].children, ChildPrefix(prefix, last)), n + 4))] +
            Parse(Render(nodes[1..], prefix), n)
  {
    var last := |nodes| == 1;
    var first, below := Line(prefix, last, nodes[0].line), Render(nodes[0].children, ChildPrefix(prefix, last));
    var rest := Render(nodes[1..], prefix);
    SiblingIsNotBelow(prefix, last, nodes[0].line);
    RestIsNotBelow(nodes, prefix);
    ChildrenAreBelow(nodes[0].children, prefix, last);
    BelowAll(below, rest, |prefix|);
    ParseBlock(first, below, rest, |prefix|);
  }

  /** A rendering can be read back: nothing of the forest is lost. */
  lemma {:induction false} ParseRender(nodes: seq<Node>, prefix: string)
    ensures Parse(Render(nodes, prefix), |prefix|) == nodes
    decreases nodes
  {
    if nodes != [] {
      ParseFirst(nodes, prefix);
      ParseRender(nodes[0].children, ChildPrefix(prefix, |nodes| == 1));
      ParseRender(nodes[1..], prefix);
    }
  }

  lemma RenderIsInjective(a: seq<Node>, b: seq<Node>, prefix: string)
    requires Render(a, prefix) == Render(b, prefix)
    ensures a == b
  {
    ParseRender(a, prefix);
    ParseRender(b, prefix);
  }

  // ----- what is drawn where

  /** The nodes of a forest. */
  function Count(nodes: seq<Node>): nat
    decreases nodes
  {
    if nodes == [] then 0 else 1 + Count(nodes[0].children) + Count(nodes[1..])
  }

  lemma {:induction false} OneLineEach(nodes: seq<Node>, prefix: string)
    ensures |Render(nodes, prefix)| == Count(nodes)
    decreases nodes
  {
    if nodes != [] {
      OneLineEach(nodes[0].children, ChildPrefix(prefix, |nodes| == 1));
      OneLineEach(nodes[1..], prefix);
    }
  }

  /** The block stands in the lines from line `at` on. */
  predicate Stands(lines: seq<string>, at: nat, block: seq<string>) {
    at + |block| <= |lines| && lines[at..at + |block|] == block
  }

  lemma StandsBehind(first: seq<string>, rest: seq<string>, at: nat, block: seq<string>)
    requires Stands(rest, at, block)
    ensures Stands(first + rest, |first| + at, block)
  {
    assert (first + rest)[|first| + at..|first| + at + |block|] == rest[at..at + |block|];
  }

  lemma BlockLength(node: Node, prefix: string, last: bool)
    ensures |Block(node, prefix, last)| == 1 + Count(node.children)
  {
    OneLineEach(node.children, ChildPrefix(prefix, last));
  }

  lemma {:induction false} BlockStands(nodes: seq<Node>, prefix: string, i: nat)
    requires i < |nodes|
    ensures Stands(Render(nodes, prefix), Count(nodes[..i]), Block(nodes[i], prefix, i == |nodes| - 1))
    decreases i
  {
    var first, rest := Block(nodes[0], prefix, |nodes| == 1), Render(nodes[1..], prefix);
    if i == 0 {
      assert nodes[..0] == [];
      assert (first + rest)[0..|first|] == first;
    } else {
      BlockStands(nodes[1..], prefix, i - 1);
      StandsBehind(first, rest, Count(nodes[1..][..i - 1]), Block(nodes[i], prefix, i == |nodes| - 1));
      BlockLength(nodes[0], prefix, |nodes| == 1);
      assert nodes[1..][..i - 1] == nodes[..i][1..];
    }
  }

  /** Lines come in preorder. The last of its siblings has a corner, any other a tee; below the last one
      the column is blank, below any other it has a bar. */
  lemma DrawnAs(nodes: seq<Node>, prefix: string, i: nat)
    requires i < |nodes|
    ensures var at, last, node := Count(nodes[..i]), i == |nodes| - 1, nodes[i];
            var mark := if last then "\U{2514}\U{2500}\U{2500} " else "\U{251C}\U{2500}\U{2500} ";
            var column := if last then "    " else "\U{2502}   ";
            Stands(Render(nodes, prefix), at, [prefix + mark + node.line] + Render(node.children, prefix + column))
  {
    BlockStands(nodes, prefix, i);
    var last := i == |nodes| - 1;
    assert Line(prefix, last, nodes[i].line) == prefix + (Connector(last) + " ") + nodes[i].line;
    assert CONNECTOR_LAST + " " == "\U{2514}\U{2500}\U{2500} ";
    assert CONNECTOR_INTERMEDIATE + " " == "\U{251C}\U{2500}\U{2500} ";
  }

  // ----- the whole text

  /** An empty header stands for none. */
  function RenderText(nodes: seq<Node>, header: string): string {
    if nodes == [] then NO_SYMBOLS
    else Join(TextLines(nodes, header), '\n')
  }

  method RenderTextLines(nodes: seq<Node>, header: string) returns (text: string)
    ensures text == RenderText(nodes, header)
  {
    if nodes == [] {
      return NO_SYMBOLS;
    }
    var lines := [];
    if header != "" {
      lines := lines + [header];
    }
    var treeLines := RenderTree(nodes, ROOT_PREFIX);
    lines := lines + treeLines;
    assert header == "" ==> lines == treeLines;
    return Join(lines, '\n');
  }

  /** Reads a text back; the header is known to the reader. */
  function ParseText(text: string, header: string): seq<Node> {
    if text == NO_SYMBOLS then []
    else
      var lines := Split(text, '\n');
      Parse(if header != "" then lines[1..] else lines, |ROOT_PREFIX|)
  }

  predicate HasNewline(nodes: seq<Node>)
    decreases nodes
  {
    exists k :: 0 <= k < |nodes| && ('\n' in nodes[k].line || HasNewline(nodes[k].children))
  }

  lemma {:induction false} RenderedLinesHaveNoNewline(nodes: seq<Node>, prefix: string, k: nat)
    requires !HasNewline(nodes) && '\n' !in prefix && k < |Render(nodes, prefix)|
    ensures '\n' !in Render(nodes, prefix)[k]
    decreases nodes
  {
    var last := |nodes| == 1;
    var below := Render(nodes[0].children, ChildPrefix(prefix, last));
    assert !HasNewline(nodes[1..]) by {
      assert forall j :: 0 <= j < |nodes[1..]| ==> nodes[1..][j] == nodes[j + 1];
    }
    if 0 < k <= |below| {
      RenderedLinesHaveNoNewline(nodes[0].children, ChildPrefix(prefix, last), k - 1);
    } else if k > |below| {
      RenderedLinesHaveNoNewline(nodes[1..], prefix, k - 1 - |below|);
    }
  }

  predicate NoNewlineIn(lines: seq<string>) {
    forall k :: 0 <= k < |lines| ==> '\n' !in lines[k]
  }

  /** What is read from lines without a newline has none. */
  lemma {:induction false} ParsedLinesHaveNoNewline(lines: seq<string>, n: nat)
    requires NoNewlineIn(lines)
    ensures !HasNewline(Parse(lines, n))
    decreases |lines|
  {
    if lines != [] {
      var k := Below(lines[1..], n);
      var nodes, rest := Parse(lines, n), Parse(lines[1 + k..], n);
      ParsedLinesHaveNoNewline(lines[1..1 + k], n + 4);
      ParsedLinesHaveNoNewline(lines[1 + k..], n);
      assert forall j :: 0 < j < |nodes| ==> nodes[j] == rest[j - 1];
    }
  }

  /** The lines of a text. */
  function TextLines(nodes: seq<Node>, header: string): seq<string> {
    if header != "" then [header] + Render(nodes, ROOT_PREFIX) else Render(nodes, ROOT_PREFIX)
  }

  lemma HeaderEndsAtNewline(lines: seq<string>, header: string)
    requires lines != []
    ensures var text := Join([header] + lines, '\n'); |text| > |header| && text[|header|] == '\n'
  {
    JoinAppend([header], lines, '\n');
    assert Join([header], '\n') == header + "" == header;
    assert Join([header] + lines, '\n') == header + Tail(lines, '\n');
  }

  lemma StartsWithFirstLine(lines: seq<string>)
    requires lines != [] && lines[0] != ""
    ensures var text := Join(lines, '\n'); text != "" && text[0] == lines[0][0]
  {
  }

  lemma TextIsNotEmptyMessage(nodes: seq<Node>, header: string)
    requires nodes != []
    ensures RenderText(nodes, header) != NO_SYMBOLS
  {
    var lines := Render(nodes, ROOT_PREFIX);
    FirstIsNotBelow(nodes, ROOT_PREFIX);
    if header == "" {
      LinesStartWithPrefix(nodes, ROOT_PREFIX, 0);
      StartsWithFirstLine(lines);
      assert lines[0][0] == lines[0][..|ROOT_PREFIX|][0] == ' ';
    } else {
      HeaderEndsAtNewline(lines, header);
    }
  }

  lemma ReadWithoutNewline(text: string, header: string)
    requires text != NO_SYMBOLS
    ensures !HasNewline(ParseText(text, header))
  {
    SplitPartsHaveNoSeparator(text, '\n');
    var lines := Split(text, '\n');
    assert NoNewlineIn(lines) && NoNewlineIn(lines[1..]);
    ParsedLinesHaveNoNewline(lines, |ROOT_PREFIX|);
    ParsedLinesHaveNoNewline(lines[1..], |ROOT_PREFIX|);
  }

  lemma ReadRenderedText(nodes: seq<Node>, header: string)
    requires nodes != [] && '\n' !in header && !HasNewline(nodes)
    ensures ParseText(RenderText(nodes, header), header) == nodes
  {
    var lines := Render(nodes, ROOT_PREFIX);
    TextIsNotEmptyMessage(nodes, header);
    forall k | 0 <= k < |lines| ensures '\n' !in lines[k] {
      RenderedLinesHaveNoNewline(nodes, ROOT_PREFIX, k);
    }
    LinesStartWithPrefix(nodes, ROOT_PREFIX, 0);
    SplitJoin(TextLines(nodes, header), '\n');
    assert ([header] + lines)[1..] == lines;
    ParseRender(nodes, ROOT_PREFIX);
  }

  /** A text is read back to its forest exactly when no symbol's line contains a newline. */
  lemma ParseRenderText(nodes: seq<Node>, header: string)
    requires '\n' !in header
    ensures ParseText(RenderText(nodes, header), header) == nodes <==> !HasNewline(nodes)
  {
    if nodes != [] {
      TextIsNotEmptyMessage(nodes, header);
      ReadWithoutNewline(RenderText(nodes, header), header);
      if !HasNewline(nodes) {
        ReadRenderedText(nodes, header);
      }
    }
  }

  // ----- which forests have a text of their own

  lemma HeaderOnTop(nodes: seq<Node>, header: string)
    requires nodes != [] && header != ""
    ensures RenderText(nodes, header) == header + (['\n'] + RenderText(nodes, ""))
  {
    var lines := Render(nodes, ROOT_PREFIX);
    FirstIsNotBelow(nodes, ROOT_PREFIX);
    JoinAppend([header], lines, '\n');
    assert Join([header], '\n') == header + "" == header;
  }

  lemma SameWithoutHeader(a: seq<Node>, b: seq<Node>, header: string)
    requires RenderText(a, header) == RenderText(b, header)
    ensures RenderText(a, "") == RenderText(b, "")
  {
    if a != [] && b != [] && header != "" {
      HeaderOnTop(a, header);
      HeaderOnTop(b, header);
      var x, y := ['\n'] + RenderText(a, ""), ['\n'] + RenderText(b, "");
      assert x == (header + x)[|header|..] == (header + y)[|header|..] == y;
      assert x[1..] == RenderText(a, "") && y[1..] == RenderText(b, "");
    } else if a != [] {
      TextIsNotEmptyMessage(a, header);
    } else if b != [] {
      TextIsNotEmptyMessage(b, header);
    }
  }

  /** Under any header, different forests without a newline have different texts. */
  lemma RenderTextIsInjective(a: seq<Node>, b: seq<Node>, header: string)
    requires !HasNewline(a) && !HasNewline(b) && RenderText(a, header) == RenderText(b, header)
    ensures a == b
  {
    SameWithoutHeader(a, b, header);
    ParseRenderText(a, "");
    ParseRenderText(b, "");
  }

  lemma JoinMerged(x: string, y: string, rest: seq<string>)
    ensures Join([x, y] + rest, '\n') == Join([x + ['\n'] + y] + rest, '\n')
  {
    JoinAppend([x], [y] + rest, '\n');
    assert [x] + ([y] + rest) == [x, y] + rest;
  }

  lemma RenderBefore(node: Node, rest: seq<Node>, prefix: string)
    requires rest != []
    ensures Render([node] + rest, prefix) ==
            [Line(prefix, false, node.line)] +
            (Render(node.children, ChildPrefix(prefix, false)) + Render(rest, prefix))
  {
    assert ([node] + rest)[1..] == rest;
    Assoc([Line(prefix, false, node.line)], Render(node.children, ChildPrefix(prefix, false)), Render(rest, prefix));
  }

  lemma LineMerges(prefix: string, first: string, more: string)
    ensures Line(prefix, false, first + ['\n'] + more) == Line(prefix, false, first) + ['\n'] + more
  {
  }

  /** A newline can stand for a sibling: a leaf and its next sibling have the text of one node, as long as
      another sibling follows. So a forest with a newline can take the text of one without. */
  lemma NewlineMergesNodes(first: string, second: string, children: seq<Node>, rest: seq<Node>, header: string)
    requires rest != []
    ensures RenderText([Node(first, [])] + ([Node(second, children)] + rest), header) ==
            RenderText([Node(first + ['\n'] + Line(ROOT_PREFIX, false, second), children)] + rest, header)
  {
    var x, y := Line(ROOT_PREFIX, false, first), Line(ROOT_PREFIX, false, second);
    var leaf, sibling, merged := Node(first, []), Node(second, children), Node(first + ['\n'] + y, children);
    var tail := Render(children, ChildPrefix(ROOT_PREFIX, false)) + Render(rest, ROOT_PREFIX);
    RenderBefore(leaf, [sibling] + rest, ROOT_PREFIX);
    RenderBefore(sibling, rest, ROOT_PREFIX);
    RenderBefore(merged, rest, ROOT_PREFIX);
    LineMerges(ROOT_PREFIX, first, y);
    LeafAndSibling(x, y, tail);
    JoinMerged(x, y, tail);
    SameUnderHeader([leaf] + ([sibling] + rest), [merged] + rest, header);
  }

  lemma LeafAndSibling(x: string, y: string, tail: seq<string>)
    ensures [x] + ([] + ([y] + tail)) == [x, y] + tail
  {
  }

  lemma SameUnderHeader(a: seq<Node>, b: seq<Node>, header: string)
    requires a != [] && b != [] && RenderText(a, "") == RenderText(b, "")
    ensures RenderText(a, header) == RenderText(b, header)
  {
    if header != "" {
      HeaderOnTop(a, header);
      HeaderOnTop(b, header);
    }
  }

  /** No reader gets every forest back from its text. */
  lemma NoReaderForAllTexts(read: string -> seq<Node>, header: string)
    ensures exists nodes :: read(RenderText(nodes, header)) != nodes
  {
    var rest := [Node("c", [])];
    var two := [Node("a", [])] + ([Node("b", [])] + rest);
    var one := [Node("a" + ['\n'] + Line(ROOT_PREFIX, false, "b"), [])] + rest;
    NewlineMergesNodes("a", "b", [], rest, header);
    assert |two| != |one|;
    assert read(RenderText(two, header)) != two || read(RenderText(one, header)) != one;
  }
}

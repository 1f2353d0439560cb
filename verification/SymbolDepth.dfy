/** Depth-limited transformation of symbol hierarchies, for text (nodes with depths) and for JSON
    (records with parent names). A negative limit is none. */
module SymbolDepth {
  import opened Wrappers

  /** A symbol of a response; the list of children may hold values that are not symbols. */
  datatype Symbol = Symbol(name: string, kind: int, children: seq<Child>)
  datatype Child = Other | Sub(symbol: Symbol)

  datatype SymbolNode = SymbolNode(name: string, kind: int, children: seq<SymbolNode>, depth: nat)

  datatype SymbolRecord = SymbolRecord(name: string, kind: int, parent: Option<string>, children: seq<SymbolRecord>)

  /** Names and kinds alone. */
  datatype Tree = Tree(name: string, kind: int, children: seq<Tree>)

  function Shape(s: Symbol): Tree
    decreases s
  {
    Tree(s.name, s.kind, ShapeAll(s.children))
  }

  function ShapeAll(children: seq<Child>): seq<Tree>
    decreases children
  {
    if children == [] then [] else ShapeOfChild(children[0]) + ShapeAll(children[1..])
  }

  function ShapeOfChild(c: Child): seq<Tree>
    decreases c
  {
    if c.Other? then [] else [Shape(c.symbol)]
  }

  function ChildLimit(limit: int): int {
    if limit > 0 then limit - 1 else -1
  }

  function Truncate(t: Tree, limit: int): Tree
    decreases t
  {
    t.(children := if limit == 0 then [] else TruncateAll(t.children, ChildLimit(limit)))
  }

  function TruncateAll(ts: seq<Tree>, limit: int): seq<Tree>
    decreases ts
  {
    if ts == [] then [] else [Truncate(ts[0], limit)] + TruncateAll(ts[1..], limit)
  }

  function NodeTree(n: SymbolNode): Tree
    decreases n
  {
    Tree(n.name, n.kind, NodeTrees(n.children))
  }

  function NodeTrees(ns: seq<SymbolNode>): seq<Tree>
    decreases ns
  {
    if ns == [] then [] else [NodeTree(ns[0])] + NodeTrees(ns[1..])
  }

  function RecordTree(r: SymbolRecord): Tree
    decreases r
  {
    Tree(r.name, r.kind, RecordTrees(r.children))
  }

  function RecordTrees(rs: seq<SymbolRecord>): seq<Tree>
    decreases rs
  {
    if rs == [] then [] else [RecordTree(rs[0])] + RecordTrees(rs[1..])
  }

  /** Every node records its distance from the roots. */
  predicate DepthsAre(ns: seq<SymbolNode>, depth: nat)
    decreases ns
  {
    forall k :: 0 <= k < |ns| ==> ns[k].depth == depth && DepthsAre(ns[k].children, depth + 1)
  }

  /** Every record has the name of the record above it. */
  predicate ParentsAre(rs: seq<SymbolRecord>, parent: Option<string>)
    decreases rs
  {
    forall k :: 0 <= k < |rs| ==> rs[k].parent == parent && ParentsAre(rs[k].children, Some(rs[k].name))
  }

  // ----- appending

  lemma {:induction false} NodeTreesAppend(ns: seq<SymbolNode>, n: SymbolNode)
    ensures NodeTrees(ns + [n]) == NodeTrees(ns) + [NodeTree(n)]
  {
    if ns != [] {
      NodeTreesAppend(ns[1..], n);
      assert (ns + [n])[1..] == ns[1..] + [n];
    }
  }

  lemma {:induction false} RecordTreesAppend(rs: seq<SymbolRecord>, r: SymbolRecord)
    ensures RecordTrees(rs + [r]) == RecordTrees(rs) + [RecordTree(r)]
  {
    if rs != [] {
      RecordTreesAppend(rs[1..], r);
      assert (rs + [r])[1..] == rs[1..] + [r];
    }
  }

  lemma {:induction false} TruncateAllAppend(ts: seq<Tree>, t: Tree, limit: int)
    ensures TruncateAll(ts + [t], limit) == TruncateAll(ts, limit) + [Truncate(t, limit)]
  {
    if ts != [] {
      TruncateAllAppend(ts[1..], t, limit);
      assert (ts + [t])[1..] == ts[1..] + [t];
    }
  }

  lemma {:induction false} ShapeAllAppend(children: seq<Child>, c: Child)
    ensures ShapeAll(children + [c]) ==
            if c.Other? then ShapeAll(children) else ShapeAll(children) + [Shape(c.symbol)]
  {
    if children == [] {
      assert [] + [c] == [c];
    } else {
      ShapeAllAppend(children[1..], c);
      assert (children + [c])[1..] == children[1..] + [c];
      assert ShapeAll(children + [c]) == ShapeOfChild(children[0]) + ShapeAll(children[1..] + [c]);
    }
  }

  // ----- the transformers

  method TransformSymbol(s: Symbol, limit: int, depth: nat) returns (node: SymbolNode)
    ensures NodeTree(node) == Truncate(Shape(s), limit) && DepthsAre([node], depth)
    ensures forall path :: path != [] ==> NodeIsSymbol([s], limit, [node], depth, path)
    decreases s
  {
    var children: seq<SymbolNode> := [];
    if limit != 0 {
      var childLimit := ChildLimit(limit);
      for i := 0 to |s.children|
        invariant NodeTrees(children) == TruncateAll(ShapeAll(s.children[..i]), childLimit)
        invariant DepthsAre(children, depth + 1)
      {
        var child := s.children[i];
        assert s.children[..i + 1] == s.children[..i] + [child];
        ShapeAllAppend(s.children[..i], child);
        if child.Sub? {
          var childNode := TransformSymbol(child.symbol, childLimit, depth + 1);
          NodeTreesAppend(children, childNode);
          TruncateAllAppend(ShapeAll(s.children[..i]), Shape(child.symbol), childLimit);
          assert childNode == [childNode][0];
          children := children + [childNode];
        }
      }
      assert s.children[..|s.children|] == s.children;
    }
    node := SymbolNode(s.name, s.kind, children, depth);
    OneNode(s, limit, node, depth);
  }

  lemma ShapesOfOne(s: Symbol)
    ensures Shapes([s]) == [Shape(s)]
  {
    var symbols := [s];
    assert |Shapes(symbols)| == 1 && Shapes(symbols)[0] == Shape(symbols[0]);
  }

  lemma OneNode(s: Symbol, limit: int, node: SymbolNode, depth: nat)
    requires NodeTree(node) == Truncate(Shape(s), limit) && DepthsAre([node], depth)
    ensures forall path :: path != [] ==> NodeIsSymbol([s], limit, [node], depth, path)
  {
    assert NodeTrees([node]) == [NodeTree(node)];
    ShapesOfOne(s);
    assert TruncateAll([Shape(s)], limit) == [Truncate(Shape(s), limit)];
    NodesAreSymbols([s], limit, [node], depth);
  }

  function Shapes(symbols: seq<Symbol>): seq<Tree> {
    seq(|symbols|, k requires 0 <= k < |symbols| => Shape(symbols[k]))
  }

  method TransformSymbols(symbols: seq<Symbol>, limit: int) returns (nodes: seq<SymbolNode>)
    ensures NodeTrees(nodes) == TruncateAll(Shapes(symbols), limit) && DepthsAre(nodes, 0)
    ensures forall path :: path != [] ==> NodeIsSymbol(symbols, limit, nodes, 0, path)
  {
    nodes := [];
    for i := 0 to |symbols|
      invariant NodeTrees(nodes) == TruncateAll(Shapes(symbols[..i]), limit)
      invariant DepthsAre(nodes, 0)
    {
      var node := TransformSymbol(symbols[i], limit, 0);
      NodeTreesAppend(nodes, node);
      TruncateAllAppend(Shapes(symbols[..i]), Shape(symbols[i]), limit);
      assert Shapes(symbols[..i + 1]) == Shapes(symbols[..i]) + [Shape(symbols[i])];
      assert node == [node][0];
      nodes := nodes + [node];
    }
    assert symbols[..|symbols|] == symbols;
    NodesAreSymbols(symbols, limit, nodes, 0);
  }

  method TransformSymbolDict(s: Symbol, limit: int, parent: Option<string>) returns (record: SymbolRecord)
    ensures RecordTree(record) == Truncate(Shape(s), limit) && ParentsAre([record], parent)
    ensures forall path :: path != [] ==> RecordIsSymbol([s], limit, [record], parent, path)
    decreases s
  {
    var children: seq<SymbolRecord> := [];
    if limit != 0 {
      var childLimit := ChildLimit(limit);
      for i := 0 to |s.children|
        invariant RecordTrees(children) == TruncateAll(ShapeAll(s.children[..i]), childLimit)
        invariant ParentsAre(children, Some(s.name))
      {
        var child := s.children[i];
        assert s.children[..i + 1] == s.children[..i] + [child];
        ShapeAllAppend(s.children[..i], child);
        if child.Sub? {
          var childRecord := TransformSymbolDict(child.symbol, childLimit, Some(s.name));
          RecordTreesAppend(children, childRecord);
          TruncateAllAppend(ShapeAll(s.children[..i]), Shape(child.symbol), childLimit);
          assert childRecord == [childRecord][0];
          children := children + [childRecord];
        }
      }
      assert s.children[..|s.children|] == s.children;
    }
    record := SymbolRecord(s.name, s.kind, parent, children);
    OneRecord(s, limit, record, parent);
  }

  lemma OneRecord(s: Symbol, limit: int, record: SymbolRecord, parent: Option<string>)
    requires RecordTree(record) == Truncate(Shape(s), limit) && ParentsAre([record], parent)
    ensures forall path :: path != [] ==> RecordIsSymbol([s], limit, [record], parent, path)
  {
    assert RecordTrees([record]) == [RecordTree(record)];
    ShapesOfOne(s);
    assert TruncateAll([Shape(s)], limit) == [Truncate(Shape(s), limit)];
    RecordsAreSymbols([s], limit, [record], parent);
  }

  // ----- what truncation keeps

  /** The subtree reached by child indices, the first one an index into the forest. */
  function At(ts: seq<Tree>, path: seq<nat>): Option<Tree>
    requires path != []
    decreases |path|
  {
    if path[0] >= |ts| then None
    else if |path| == 1 then Some(ts[path[0]])
    else At(ts[path[0]].children, path[1..])
  }

  function Label(o: Option<Tree>): Option<(string, int)> {
    match o
    case None => None
    case Some(t) => Some((t.name, t.kind))
  }

  lemma {:induction false} TruncateAllAt(ts: seq<Tree>, limit: int)
    ensures |TruncateAll(ts, limit)| == |ts|
    ensures forall k :: 0 <= k < |ts| ==> TruncateAll(ts, limit)[k] == Truncate(ts[k], limit)
  {
    if ts != [] {
      TruncateAllAt(ts[1..], limit);
    }
  }

  /** A limit keeps exactly the nodes no deeper than it, with their places, names and kinds; a negative
      limit keeps all. The depth of a node is the length of its path less one. */
  lemma {:induction false} TruncationKeepsExactly(ts: seq<Tree>, limit: int, path: seq<nat>)
    requires path != []
    ensures Label(At(TruncateAll(ts, limit), path)) ==
            if limit < 0 || |path| - 1 <= limit then Label(At(ts, path)) else None
    decreases |path|
  {
    TruncateAllAt(ts, limit);
    if |path| > 1 && path[0] < |ts| {
      var t := ts[path[0]];
      if limit != 0 {
        TruncationKeepsExactly(t.children, ChildLimit(limit), path[1..]);
      } else {
        assert Truncate(t, limit).children == [];
      }
    }
  }

  /** The smaller of two limits, where a negative one is none. */
  function MinLimit(a: int, b: int): int {
    if a < 0 then b else if b < 0 || a <= b then a else b
  }

  lemma {:induction false} TruncationsCompose(t: Tree, a: int, b: int)
    ensures Truncate(Truncate(t, a), b) == Truncate(t, MinLimit(a, b))
    decreases t
  {
    if a != 0 && b != 0 {
      AllTruncationsCompose(t.children, ChildLimit(a), ChildLimit(b));
      assert MinLimit(ChildLimit(a), ChildLimit(b)) == ChildLimit(MinLimit(a, b));
    }
  }

  lemma {:induction false} AllTruncationsCompose(ts: seq<Tree>, a: int, b: int)
    ensures TruncateAll(TruncateAll(ts, a), b) == TruncateAll(ts, MinLimit(a, b))
    decreases ts
  {
    if ts != [] {
      TruncationsCompose(ts[0], a, b);
      AllTruncationsCompose(ts[1..], a, b);
    }
  }

  // ----- from the symbols of a response to the nodes and records

  /** The children that are symbols, in order. */
  function SubsOf(children: seq<Child>): seq<Symbol> {
    if children == [] then []
    else
      var init, last := SubsOf(children[..|children| - 1]), children[|children| - 1];
      if last.Sub? then init + [last.symbol] else init
  }

  /** Symbols at increasing places, which are all the places of symbols. */
  predicate Picks(children: seq<Child>, subs: seq<Symbol>, at: seq<nat>) {
    |at| == |subs| &&
    (forall j :: 0 <= j < |at| ==> at[j] < |children| && children[at[j]] == Sub(subs[j])) &&
    (forall j, k :: 0 <= j < k < |at| ==> at[j] < at[k]) &&
    (forall i :: 0 <= i < |children| && children[i].Sub? ==> i in at)
  }

  lemma PickedLast(children: seq<Child>, c: Child, subs: seq<Symbol>, at: seq<nat>)
    requires Picks(children, subs, at)
    ensures c.Other? ==> Picks(children + [c], subs, at)
    ensures c.Sub? ==> Picks(children + [c], subs + [c.symbol], at + [|children|])
  {
    if c.Sub? {
      var longer := at + [|children|];
      assert longer[|at|] == |children|;
    }
  }

  lemma {:induction false} SubsArePicked(children: seq<Child>) returns (at: seq<nat>)
    ensures Picks(children, SubsOf(children), at)
    decreases |children|
  {
    at := [];
    if children != [] {
      var init, last := children[..|children| - 1], children[|children| - 1];
      at := SubsArePicked(init);
      PickedLast(init, last, SubsOf(init), at);
      assert children == init + [last];
      at := if last.Sub? then at + [|init|] else at;
    }
  }

  /** The symbol reached by child indices, counted over the children that are symbols. */
  function SymbolAt(symbols: seq<Symbol>, path: seq<nat>): Option<Symbol>
    requires path != []
    decreases |path|
  {
    if path[0] >= |symbols| then None
    else if |path| == 1 then Some(symbols[path[0]])
    else SymbolAt(SubsOf(symbols[path[0]].children), path[1..])
  }

  function NodeAt(nodes: seq<SymbolNode>, path: seq<nat>): Option<SymbolNode>
    requires path != []
    decreases |path|
  {
    if path[0] >= |nodes| then None
    else if |path| == 1 then Some(nodes[path[0]])
    else NodeAt(nodes[path[0]].children, path[1..])
  }

  function RecordAt(records: seq<SymbolRecord>, path: seq<nat>): Option<SymbolRecord>
    requires path != []
    decreases |path|
  {
    if path[0] >= |records| then None
    else if |path| == 1 then Some(records[path[0]])
    else RecordAt(records[path[0]].children, path[1..])
  }

  predicate WithinLimit(path: seq<nat>, limit: int) {
    limit < 0 || |path| - 1 <= limit
  }

  /** There is a node here exactly if there is a symbol here and it is not too deep, and then it has the name
      and kind of the symbol and its depth. */
  predicate NodeIsSymbol(symbols: seq<Symbol>, limit: int, nodes: seq<SymbolNode>, depth: nat, path: seq<nat>)
    requires path != []
  {
    match (SymbolAt(symbols, path), NodeAt(nodes, path))
    case (Some(s), Some(n)) =>
      WithinLimit(path, limit) && n.name == s.name && n.kind == s.kind && n.depth == depth + |path| - 1
    case (s, n) => n.None? && (s.None? || !WithinLimit(path, limit))
  }

  /** The same for records, each with the name of the symbol above it. */
  predicate RecordIsSymbol(symbols: seq<Symbol>, limit: int, records: seq<SymbolRecord>, parent: Option<string>,
                           path: seq<nat>)
    requires path != []
  {
    match (SymbolAt(symbols, path), RecordAt(records, path))
    case (Some(s), Some(r)) =>
      WithinLimit(path, limit) && r.name == s.name && r.kind == s.kind &&
      r.parent == (if |path| == 1 then parent
                   else match SymbolAt(symbols, path[..|path| - 1]) case Some(above) => Some(above.name) case None => None)
    case (s, r) => r.None? && (s.None? || !WithinLimit(path, limit))
  }

  lemma {:induction false} ShapesOfSubs(children: seq<Child>)
    ensures ShapeAll(children) == Shapes(SubsOf(children))
    decreases |children|
  {
    if children != [] {
      var init, last := children[..|children| - 1], children[|children| - 1];
      ShapesOfSubs(init);
      ShapeAllAppend(init, last);
      assert children == init + [last];
    }
  }

  lemma {:induction false} ShapeAt(symbols: seq<Symbol>, path: seq<nat>)
    requires path != []
    ensures match SymbolAt(symbols, path)
            case Some(s) => At(Shapes(symbols), path) == Some(Shape(s))
            case None => At(Shapes(symbols), path) == None
    decreases |path|
  {
    if path[0] < |symbols| && |path| > 1 {
      ShapesOfSubs(symbols[path[0]].children);
      ShapeAt(SubsOf(symbols[path[0]].children), path[1..]);
    }
  }

  lemma {:induction false} NodeTreesAre(ns: seq<SymbolNode>)
    ensures |NodeTrees(ns)| == |ns| && forall k :: 0 <= k < |ns| ==> NodeTrees(ns)[k] == NodeTree(ns[k])
  {
    if ns != [] {
      NodeTreesAre(ns[1..]);
    }
  }

  lemma {:induction false} RecordTreesAre(rs: seq<SymbolRecord>)
    ensures |RecordTrees(rs)| == |rs| && forall k :: 0 <= k < |rs| ==> RecordTrees(rs)[k] == RecordTree(rs[k])
  {
    if rs != [] {
      RecordTreesAre(rs[1..]);
    }
  }

  lemma {:induction false} NodeTreeAt(ns: seq<SymbolNode>, depth: nat, path: seq<nat>)
    requires path != [] && DepthsAre(ns, depth)
    ensures match NodeAt(ns, path)
            case Some(n) => At(NodeTrees(ns), path) == Some(NodeTree(n)) && n.depth == depth + |path| - 1
            case None => At(NodeTrees(ns), path) == None
    decreases |path|
  {
    NodeTreesAre(ns);
    if path[0] < |ns| && |path| > 1 {
      NodeTreeAt(ns[path[0]].children, depth + 1, path[1..]);
    }
  }

  lemma {:induction false} RecordTreeAt(rs: seq<SymbolRecord>, parent: Option<string>, path: seq<nat>)
    requires path != [] && ParentsAre(rs, parent)
    ensures match RecordAt(rs, path)
            case Some(r) =>
              At(RecordTrees(rs), path) == Some(RecordTree(r)) &&
              r.parent == (if |path| == 1 then parent
                           else match RecordAt(rs, path[..|path| - 1]) case Some(above) => Some(above.name) case None => None)
            case None => At(RecordTrees(rs), path) == None
    decreases |path|
  {
    RecordTreesAre(rs);
    if path[0] < |rs| && |path| > 1 {
      var children, rest := rs[path[0]].children, path[1..];
      RecordTreeAt(children, Some(rs[path[0]].name), rest);
      var above := path[..|path| - 1];
      if |rest| > 1 {
        assert above[1..] == rest[..|rest| - 1];
      }
    }
  }

  /** The nodes are the symbols within the limit, each in its place. */
  lemma NodesAreSymbols(symbols: seq<Symbol>, limit: int, nodes: seq<SymbolNode>, depth: nat)
    requires NodeTrees(nodes) == TruncateAll(Shapes(symbols), limit) && DepthsAre(nodes, depth)
    ensures forall path :: path != [] ==> NodeIsSymbol(symbols, limit, nodes, depth, path)
  {
    forall path: seq<nat> | path != [] ensures NodeIsSymbol(symbols, limit, nodes, depth, path) {
      ShapeAt(symbols, path);
      NodeTreeAt(nodes, depth, path);
      TruncationKeepsExactly(Shapes(symbols), limit, path);
    }
  }

  lemma RecordsAreSymbols(symbols: seq<Symbol>, limit: int, records: seq<SymbolRecord>, parent: Option<string>)
    requires RecordTrees(records) == TruncateAll(Shapes(symbols), limit) && ParentsAre(records, parent)
    ensures forall path :: path != [] ==> RecordIsSymbol(symbols, limit, records, parent, path)
  {
    forall path: seq<nat> | path != [] ensures RecordIsSymbol(symbols, limit, records, parent, path) {
      ShapeAt(symbols, path);
      RecordTreeAt(records, parent, path);
      TruncationKeepsExactly(Shapes(symbols), limit, path);
      if |path| > 1 {
        var above := path[..|path| - 1];
        ShapeAt(symbols, above);
        RecordTreeAt(records, parent, above);
        TruncationKeepsExactly(Shapes(symbols), limit, above);
      }
    }
  }
}

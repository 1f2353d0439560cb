/** Workspace edits: which edits they make to each file. */
module WorkspaceEdits {
  import opened Wrappers
  import opened TextEdits
  import opened FileSystem

  /** One entry of `documentChanges`; `kind` is present on file operations only. */
  datatype DocumentChange = DocumentChange(
    kind: Option<string>, textDocument: Option<Path>, edits: Option<seq<TextEdit>>)

  /** Documents are named by the path their URI stands for. */
  datatype WorkspaceEdit = WorkspaceEdit(
    documentChanges: Option<seq<DocumentChange>>, changes: Option<seq<(Path, seq<TextEdit>)>>)

  predicate IsTextDocumentEdit(change: DocumentChange) {
    change.kind == None && change.textDocument.Some? && change.edits.Some?
  }

  /** The text document edits in order; `changes` counts only without `documentChanges`. */
  function DocumentEdits(edit: WorkspaceEdit): seq<(Path, seq<TextEdit>)> {
    if edit.documentChanges.None? || edit.documentChanges.value == [] then
      if edit.changes.None? then [] else edit.changes.value
    else TextDocumentEdits(edit.documentChanges.value)
  }

  function TextDocumentEdits(changes: seq<DocumentChange>): seq<(Path, seq<TextEdit>)> {
    if changes == [] then []
    else
      var init, last := changes[..|changes| - 1], changes[|changes| - 1];
      TextDocumentEdits(init) + DocumentOf(last)
  }

  function DocumentOf(change: DocumentChange): seq<(Path, seq<TextEdit>)> {
    if IsTextDocumentEdit(change) then [(change.textDocument.value, change.edits.value)] else []
  }

  /** All edits the workspace edit makes to one file, in order. */
  function EditsFor(documents: seq<(Path, seq<TextEdit>)>, p: Path): seq<TextEdit> {
    if documents == [] then []
    else
      var init, last := documents[..|documents| - 1], documents[|documents| - 1];
      EditsFor(init, p) + (if last.0 == p then last.1 else [])
  }

  // ----- which edits a workspace edit makes to a file, over its own indices

  predicate Stretch(all: seq<TextEdit>, from: nat, to: nat, part: seq<TextEdit>) {
    from + |part| == to <= |all| && all[from..to] == part
  }

  /** The list is cut at these offsets into these parts, one after another. */
  predicate CutInto(all: seq<TextEdit>, parts: seq<seq<TextEdit>>, at: seq<nat>) {
    |at| == |parts| + 1 && at[0] == 0 && at[|parts|] == |all| &&
    forall k :: 0 <= k < |parts| ==> Stretch(all, at[k], at[k + 1], parts[k])
  }

  ghost predicate Concatenates(all: seq<TextEdit>, parts: seq<seq<TextEdit>>) {
    exists at :: CutInto(all, parts, at)
  }

  /** What each entry of `documentChanges` makes of a file. */
  function DocumentParts(changes: seq<DocumentChange>, p: Path): (parts: seq<seq<TextEdit>>)
    ensures |parts| == |changes| && forall k :: 0 <= k < |changes| ==>
      parts[k] == if changes[k].kind == None && changes[k].textDocument == Some(p) && changes[k].edits.Some?
                  then changes[k].edits.value else []
  {
    seq(|changes|, k requires 0 <= k < |changes| =>
      if IsTextDocumentEdit(changes[k]) && changes[k].textDocument.value == p then changes[k].edits.value else [])
  }

  function ChangeParts(changes: seq<(Path, seq<TextEdit>)>, p: Path): (parts: seq<seq<TextEdit>>)
    ensures |parts| == |changes| && forall k :: 0 <= k < |changes| ==>
      parts[k] == if changes[k].0 == p then changes[k].1 else []
  {
    seq(|changes|, k requires 0 <= k < |changes| => if changes[k].0 == p then changes[k].1 else [])
  }

  /** These are the edits a workspace edit makes to a file: those of every text document edit of the file, one
      after another in their order. `changes` counts only where `documentChanges` is absent or empty. */
  ghost predicate Assembled(edit: WorkspaceEdit, p: Path, all: seq<TextEdit>) {
    if edit.documentChanges.Some? && edit.documentChanges.value != [] then
      Concatenates(all, DocumentParts(edit.documentChanges.value, p))
    else if edit.changes.Some? then Concatenates(all, ChangeParts(edit.changes.value, p))
    else all == []
  }

  lemma NothingConcatenates()
    ensures Concatenates([], [])
  {
    assert CutInto([], [], [0]);
  }

  lemma OneMorePart(all: seq<TextEdit>, parts: seq<seq<TextEdit>>, more: seq<TextEdit>)
    requires Concatenates(all, parts)
    ensures Concatenates(all + more, parts + [more])
  {
    var at: seq<nat> :| CutInto(all, parts, at);
    var every, end: seq<nat> := all + more, [|all + more|];
    var longer := at + end;
    forall k | 0 <= k < |parts| + 1 ensures Stretch(every, longer[k], longer[k + 1], (parts + [more])[k]) {
      if k < |parts| {
        assert Stretch(all, at[k], at[k + 1], parts[k]);
        assert every[at[k]..at[k + 1]] == all[at[k]..at[k + 1]];
      } else {
        assert longer[k] == |all| && longer[k + 1] == |every|;
      }
    }
    assert longer[0] == at[0] && longer[|parts| + 1] == |every|;
    assert CutInto(every, parts + [more], longer);
  }

  lemma {:induction false} DocumentChangesAssemble(changes: seq<DocumentChange>, p: Path)
    ensures Concatenates(EditsFor(TextDocumentEdits(changes), p), DocumentParts(changes, p))
    decreases |changes|
  {
    if changes == [] {
      NothingConcatenates();
      assert DocumentParts(changes, p) == [];
    } else {
      var init, last := changes[..|changes| - 1], changes[|changes| - 1];
      var more := DocumentParts(changes, p)[|changes| - 1];
      DocumentChangesAssemble(init, p);
      assert DocumentParts(changes, p) == DocumentParts(init, p) + [more];
      OneMoreDocument(TextDocumentEdits(init), DocumentParts(init, p), last, p, more);
    }
  }

  lemma OneMoreDocument(documents: seq<(Path, seq<TextEdit>)>, parts: seq<seq<TextEdit>>, last: DocumentChange, p: Path,
                        more: seq<TextEdit>)
    requires more == if IsTextDocumentEdit(last) && last.textDocument.value == p then last.edits.value else []
    requires Concatenates(EditsFor(documents, p), parts)
    ensures Concatenates(EditsFor(documents + DocumentOf(last), p), parts + [more])
  {
    LastDocument(documents, last, p, more);
    OneMorePart(EditsFor(documents, p), parts, more);
  }

  lemma LastDocument(documents: seq<(Path, seq<TextEdit>)>, last: DocumentChange, p: Path, more: seq<TextEdit>)
    requires more == if IsTextDocumentEdit(last) && last.textDocument.value == p then last.edits.value else []
    ensures EditsFor(documents + DocumentOf(last), p) == EditsFor(documents, p) + more
  {
    if IsTextDocumentEdit(last) {
      var longer := documents + [(last.textDocument.value, last.edits.value)];
      assert longer[..|longer| - 1] == documents;
    } else {
      assert documents + [] == documents;
    }
  }

  lemma {:induction false} ChangesAssemble(changes: seq<(Path, seq<TextEdit>)>, p: Path)
    ensures Concatenates(EditsFor(changes, p), ChangeParts(changes, p))
    decreases |changes|
  {
    if changes == [] {
      NothingConcatenates();
      assert ChangeParts(changes, p) == [];
    } else {
      var init, more := changes[..|changes| - 1], ChangeParts(changes, p)[|changes| - 1];
      ChangesAssemble(init, p);
      OneMorePart(EditsFor(init, p), ChangeParts(init, p), more);
      assert ChangeParts(changes, p) == ChangeParts(init, p) + [more];
    }
  }

  /** The edits extracted for a file are exactly those. */
  lemma ExtractedIsAssembled(edit: WorkspaceEdit, p: Path)
    ensures Assembled(edit, p, EditsFor(DocumentEdits(edit), p))
  {
    if edit.documentChanges.Some? && edit.documentChanges.value != [] {
      DocumentChangesAssemble(edit.documentChanges.value, p);
    } else if edit.changes.Some? {
      ChangesAssemble(edit.changes.value, p);
    }
  }

  lemma {:induction false} SameUpTo(a: seq<TextEdit>, b: seq<TextEdit>, parts: seq<seq<TextEdit>>,
                                    at: seq<nat>, other: seq<nat>, n: nat)
    requires CutInto(a, parts, at) && CutInto(b, parts, other) && n <= |parts|
    ensures at[n] == other[n] <= |a| && at[n] <= |b| && a[..at[n]] == b[..at[n]]
  {
    if n > 0 {
      SameUpTo(a, b, parts, at, other, n - 1);
      assert Stretch(a, at[n - 1], at[n], parts[n - 1]) && Stretch(b, other[n - 1], other[n], parts[n - 1]);
      assert a[..at[n]] == a[..at[n - 1]] + parts[n - 1];
      assert b[..at[n]] == b[..at[n - 1]] + parts[n - 1];
    }
  }

  lemma ConcatenatesOnce(a: seq<TextEdit>, b: seq<TextEdit>, parts: seq<seq<TextEdit>>)
    requires Concatenates(a, parts) && Concatenates(b, parts)
    ensures a == b
  {
    var at :| CutInto(a, parts, at);
    var other :| CutInto(b, parts, other);
    SameUpTo(a, b, parts, at, other, |parts|);
    assert a[..|a|] == a && b[..|b|] == b;
  }

  /** No other list is. */
  lemma AssembledOnce(edit: WorkspaceEdit, p: Path, a: seq<TextEdit>, b: seq<TextEdit>)
    requires Assembled(edit, p, a) && Assembled(edit, p, b)
    ensures a == b
  {
    if edit.documentChanges.Some? && edit.documentChanges.value != [] {
      ConcatenatesOnce(a, b, DocumentParts(edit.documentChanges.value, p));
    } else if edit.changes.Some? {
      ConcatenatesOnce(a, b, ChangeParts(edit.changes.value, p));
    }
  }
}

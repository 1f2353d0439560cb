/** Turns a workspace edit into edit records and applies them as one transaction:
    back up, edit, write the session documents, and restore everything when a step fails. */
module RenameServices {
  import opened Wrappers
  import opened Sequences
  import opened Lines
  import opened TextEdits
  import opened TextEditArrays
  import opened WorkspaceEdits
  import opened BottomUp
  import opened EditMeaning
  import opened OldText
  import opened FileSystem
  import opened RenameSessions
  import opened BackupManagers

  /** What extraction promises of the records made from some documents: they are the edits of each
      document, in order, and each carries the text its range covers in the file. */
  ghost predicate RecordsOf(files: Files, documents: seq<(Path, seq<TextEdit>)>, records: seq<EditRecord>) {
    (forall p :: EditsOf(records, p) == EditsFor(documents, p)) &&
    (forall k :: 0 <= k < |records| ==> CarriesOldText(files, records[k]))
  }

  predicate CarriesOldText(files: Files, record: EditRecord) {
    var content := if record.file in files then files[record.file] else "";
    record.oldText == if WellFormed(record.range) then Between(content, record.range) else ""
  }

  /** The records are of exactly the edits the workspace edit makes. */
  ghost predicate RecordsAsAsked(edit: WorkspaceEdit, records: seq<EditRecord>) {
    forall p :: Assembled(edit, p, EditsOf(records, p))
  }

  ghost predicate HoldsEditsOf(edit: WorkspaceEdit, p: Path, before: string, after: string) {
    exists all :: Assembled(edit, p, all) && after == Edited(before, all)
  }

  lemma ExtractedAsAsked(files: Files, edit: WorkspaceEdit, records: seq<EditRecord>)
    requires RecordsOf(files, DocumentEdits(edit), records)
    ensures RecordsAsAsked(edit, records)
  {
    forall p ensures Assembled(edit, p, EditsOf(records, p)) {
      ExtractedIsAssembled(edit, p);
      assert EditsOf(records, p) == EditsFor(DocumentEdits(edit), p);
    }
  }

  /** Every file outside a directory holds exactly the edits made to it, and no file appeared or disappeared. */
  ghost predicate EditedAsAsked(dir: Path, edit: WorkspaceEdit, before: Files, after: Files) {
    forall p :: !Under(dir, p) ==>
      (p in before <==> p in after) &&
      (p in before && p in after ==> HoldsEditsOf(edit, p, before[p], after[p]))
  }

  /** No text document edit is of a file in the directory. */
  predicate TouchesNothingUnder(dir: Path, edit: WorkspaceEdit) {
    if edit.documentChanges.Some? && edit.documentChanges.value != [] then
      forall k :: 0 <= k < |edit.documentChanges.value| ==>
        var change := edit.documentChanges.value[k];
        change.kind == None && change.textDocument.Some? && change.edits.Some? ==> !Under(dir, change.textDocument.value)
    else edit.changes.Some? ==> forall k :: 0 <= k < |edit.changes.value| ==> !Under(dir, edit.changes.value[k].0)
  }

  lemma {:induction false} EditsOfAppend(a: seq<EditRecord>, b: seq<EditRecord>, p: Path)
    ensures EditsOf(a + b, p) == EditsOf(a, p) + EditsOf(b, p)
  {
    if a == [] {
      assert a + b == b;
    } else {
      EditsOfAppend(a[1..], b, p);
      assert (a + b)[1..] == a[1..] + b;
      Assoc(EditOf(a[0], p), EditsOf(a[1..], p), EditsOf(b, p));
    }
  }

  lemma {:induction false} EditsOfOneFile(records: seq<EditRecord>, file: Path, edits: seq<TextEdit>, p: Path)
    requires |records| == |edits|
    requires forall k :: 0 <= k < |edits| ==>
      records[k].file == file && TextEdit(records[k].range, records[k].newText) == edits[k]
    ensures EditsOf(records, p) == if p == file then edits else []
  {
    if edits != [] {
      EditsOfOneFile(records[1..], file, edits[1..], p);
      assert edits == [edits[0]] + edits[1..];
    }
  }

  lemma RecordsOfAppend(files: Files, documents: seq<(Path, seq<TextEdit>)>, records: seq<EditRecord>,
                        file: Path, edits: seq<TextEdit>, more: seq<EditRecord>)
    requires RecordsOf(files, documents, records)
    requires |more| == |edits| && forall k :: 0 <= k < |edits| ==>
      more[k].file == file && TextEdit(more[k].range, more[k].newText) == edits[k] && CarriesOldText(files, more[k])
    ensures RecordsOf(files, documents + [(file, edits)], records + more)
  {
    var all := documents + [(file, edits)];
    assert all[..|all| - 1] == documents;
    forall p ensures EditsOf(records + more, p) == EditsFor(all, p) {
      EditsOfAppend(records, more, p);
      EditsOfOneFile(more, file, edits, p);
    }
  }

  /** Files that exist and are not affected have no edits to apply. */
  lemma {:induction false} NoEditsElsewhere(records: seq<EditRecord>, p: Path)
    ensures p !in FilesOf(records) ==> EditsOf(records, p) == []
  {
    if records != [] {
      NoEditsElsewhere(records[1..], p);
      assert records[0].file in FilesOf(records);
      assert forall r :: r in records[1..] ==> r in records;
    }
  }

  method CreateEditRecords(file: Path, content: string, edits: seq<TextEdit>) returns (records: seq<EditRecord>)
    ensures |records| == |edits|
    ensures forall k :: 0 <= k < |edits| ==>
      records[k].file == file && TextEdit(records[k].range, records[k].newText) == edits[k] &&
      records[k].oldText == if WellFormed(edits[k].range) then Between(content, edits[k].range) else ""
  {
    records := [];
    for i := 0 to |edits|
      invariant |records| == i
      invariant forall k :: 0 <= k < i ==>
        records[k].file == file && TextEdit(records[k].range, records[k].newText) == edits[k] &&
        records[k].oldText == if WellFormed(edits[k].range) then Between(content, edits[k].range) else ""
    {
      var oldText := ExtractTextAtRange(content, edits[i].range);
      records := records + [EditRecord(file, edits[i].range, oldText, edits[i].newText)];
    }
  }

  /** The body of the loop that edits one file. */
  method EditLines(lines: seq<string>, e: TextEdit) returns (result: seq<string>)
    ensures result == ApplyEdit(lines, e)
  {
    var s, t := e.range.start, e.range.end;
    result := lines;
    if s.line == t.line {
      if s.line < |lines| {
        var line := lines[s.line];
        result := lines[s.line := Take(line, s.character) + e.newText + Drop(line, t.character)];
      }
    } else {
      var newLines := Split(e.newText, NEWLINE);
      if s.line < |lines| {
        var prefix := Take(lines[s.line], s.character);
        var suffix := if t.line < |lines| then Drop(lines[t.line], t.character) else "";
        newLines := newLines[0 := prefix + newLines[0]];
        newLines := newLines[|newLines| - 1 := newLines[|newLines| - 1] + suffix];
        result := lines[..s.line] + newLines + (if t.line < |lines| then lines[t.line + 1..] else []);
      }
    }
  }

  /** The edits of one file: split, sort, edit the lines from the last record to the first, join. */
  method EditContent(content: string, edits: seq<TextEdit>) returns (result: string)
    ensures result == Edited(content, edits)
  {
    var lines := Split(content, NEWLINE);
    var sorted := SortDescending(edits);
    for k := 0 to |sorted|
      invariant lines == ApplyAll(Split(content, NEWLINE), sorted[..k])
    {
      lines := EditLines(lines, sorted[k]);
      assert sorted[..k + 1] == sorted[..k] + [sorted[k]];
      ApplyAllLast(Split(content, NEWLINE), sorted[..k], sorted[k]);
    }
    assert sorted[..|sorted|] == sorted;
    result := Join(lines, NEWLINE);
  }

  /** The files are as before, except that those done so far are fully edited. */
  ghost predicate PartlyEdited(before: Files, now: Files, records: seq<EditRecord>, done: set<Path>) {
    now.Keys == before.Keys &&
    forall p :: p in before ==> now[p] == if p in done then Edited(before[p], EditsOf(records, p)) else before[p]
  }

  lemma OneMoreEdited(before: Files, now: Files, records: seq<EditRecord>, done: set<Path>, p: Path)
    requires PartlyEdited(before, now, records, done) && p !in done
    ensures p !in now ==> PartlyEdited(before, now, records, done + {p})
    ensures p in now ==> PartlyEdited(before, now[p := Edited(now[p], EditsOf(records, p))], records, done + {p})
  {
  }

  lemma PartlyEditedTouchesOnly(before: Files, now: Files, records: seq<EditRecord>, done: set<Path>)
    requires PartlyEdited(before, now, records, done) && done <= FilesOf(records)
    ensures OnlyThese(before, now, Existing(before, FilesOf(records)))
  {
  }

  lemma FailedWriteTouchesOnly(before: Files, now: Files, damaged: Files, may: set<Path>, p: Path)
    requires OnlyThese(before, now, may) && p in may && SameExcept(p, now, damaged)
    ensures OnlyThese(before, damaged, may)
  {
  }

  /** The existing files a list of document edits changes. */
  function Targets(before: Files, documents: seq<(Path, seq<TextEdit>)>): set<Path> {
    set p | p in before && EditsFor(documents, p) != []
  }

  lemma TargetsAreAffected(before: Files, documents: seq<(Path, seq<TextEdit>)>, records: seq<EditRecord>)
    requires RecordsOf(before, documents, records)
    ensures Affected(before, records) == Targets(before, documents)
  {
    forall p ensures p in FilesOf(records) <==> EditsFor(documents, p) != [] {
      assert EditsOf(records, p) == EditsFor(documents, p);
      NoEditsElsewhere(records, p);
      EditsOfPresent(records, p);
    }
  }

  lemma {:induction false} EditsOfPresent(records: seq<EditRecord>, p: Path)
    ensures p in FilesOf(records) ==> EditsOf(records, p) != []
  {
    if p in FilesOf(records) && records[0].file != p {
      var r :| r in records && r.file == p;
      assert r in records[1..];
      EditsOfPresent(records[1..], p);
    }
  }

  /** The slots of the affected files still hold what those files contained. */
  ghost predicate BackupsIntact(slots: map<Path, Path>, before: Files, now: Files, affected: set<Path>)
    requires affected <= slots.Keys && affected <= before.Keys
  {
    forall p :: p in affected ==> slots[p] in now && now[slots[p]] == before[p]
  }

  lemma RestoreGivesBack(slots: map<Path, Path>, dir: Path, before: Files, now: Files, affected: set<Path>)
    requires slots.Keys == affected && affected <= before.Keys
    requires forall p :: p in affected ==> !Under(dir, p) && Under(dir, slots[p])
    requires BackupsIntact(slots, before, now, affected)
    requires forall p :: !Under(dir, p) && p !in affected ==>
      (p in before <==> p in now) && (p in before && p in now ==> now[p] == before[p])
    ensures OriginalsAreNotBackups(slots)
    ensures SameOutside(dir, before, Restored(now, slots))
  {
  }

  lemma RestoreGivesOther(slots: map<Path, Path>, dir: Path, before: Files, now: Files, affected: set<Path>)
    requires slots.Keys == affected && affected <= before.Keys
    requires forall p :: p in affected ==> !Under(dir, p) && slots[p] in now
    requires !BackupsIntact(slots, before, now, affected)
    ensures !SameOutside(dir, before, Restored(now, slots))
  {
    var p :| p in affected && now[slots[p]] != before[p];
    assert Restored(now, slots)[p] == now[slots[p]];
  }

  /** Backing up, editing and writing the two documents: the files after a session. */
  ghost predicate SessionSteps(codec: Codec, root: Path, id: string, request: RenameRequest,
                               before: Files, backedUp: Files, edited: Files, after: Files, records: seq<EditRecord>)
  {
    var dir, affected := SessionDir(root, id), Affected(before, records);
    BackupsMade(Slots(root, dir, FilesOf(records)), dir, before, backedUp, affected) &&
    PartlyEdited(backedUp, edited, records, FilesOf(records)) &&
    after == edited[dir + [REQUEST] := codec.requestText(request)]
                   [dir + [MANIFEST] := codec.manifestText(Manifest(root, id, affected))]
  }

  lemma StepsEditOutside(codec: Codec, root: Path, id: string, request: RenameRequest,
                         before: Files, backedUp: Files, edited: Files, after: Files, records: seq<EditRecord>)
    requires SessionSteps(codec, root, id, request, before, backedUp, edited, after, records)
    ensures EditedOutside(SessionDir(root, id), before, after, records)
  {
    DocumentsUnderDir(SessionDir(root, id));
  }

  lemma EditedKeepsSlot(backedUp: Files, edited: Files, records: seq<EditRecord>, dir: Path, slot: Path)
    requires PartlyEdited(backedUp, edited, records, FilesOf(records))
    requires NoneUnder(dir, FilesOf(records)) && Under(dir, slot) && slot in backedUp
    ensures slot in edited && edited[slot] == backedUp[slot]
  {
  }

  /** The file whose content a slot holds. */
  lemma SlotSource(root: Path, dir: Path, before: Files, backedUp: Files, files: set<Path>, affected: set<Path>, p: Path)
    returns (q: Path)
    requires affected <= files && affected <= before.Keys && p in affected
    requires BackedUp(Slots(root, dir, files), dir, before, backedUp, affected)
    ensures q in affected && Slot(root, dir, q) == Slot(root, dir, p)
    ensures Slot(root, dir, p) in backedUp && backedUp[Slot(root, dir, p)] == before[q]
  {
    var slots := Slots(root, dir, files);
    assert SlotHolds(slots, before, backedUp, affected, slots[p]);
    q :| q in affected && slots[q] == slots[p] && backedUp[slots[p]] == before[q];
  }

  lemma DocumentsOnTop(edited: Files, after: Files, first: Path, firstText: string, second: Path, secondText: string,
                       slot: Path)
    requires first != second && after == edited[first := firstText][second := secondText]
    ensures slot == second ==> slot in after && after[slot] == secondText
    ensures slot == first ==> slot in after && after[slot] == firstText
    ensures slot != first && slot != second && slot in edited ==> slot in after && after[slot] == edited[slot]
  {
  }

  lemma StepsFillSlots(codec: Codec, root: Path, id: string, request: RenameRequest,
                       before: Files, backedUp: Files, edited: Files, after: Files, records: seq<EditRecord>, p: Path)
    requires NoneUnder(SessionDir(root, id), FilesOf(records)) && p in Affected(before, records)
    requires BackedUp(Slots(root, SessionDir(root, id), FilesOf(records)), SessionDir(root, id), before, backedUp,
                      Affected(before, records))
    requires PartlyEdited(backedUp, edited, records, FilesOf(records))
    requires var dir := SessionDir(root, id);
             after == edited[dir + [REQUEST] := codec.requestText(request)]
                            [dir + [MANIFEST] := codec.manifestText(Manifest(root, id, Affected(before, records)))]
    ensures SlotWritten(codec, root, id, request, before, after, Affected(before, records), p)
  {
    var dir, affected := SessionDir(root, id), Affected(before, records);
    var slot := Slot(root, dir, p);
    var q := SlotSource(root, dir, before, backedUp, FilesOf(records), affected, p);
    SlotsUnderDir(root, dir, FilesOf(records));
    assert Under(dir, slot);
    EditedKeepsSlot(backedUp, edited, records, dir, slot);
    DocumentsUnderDir(dir);
    DocumentsOnTop(edited, after, dir + [REQUEST], codec.requestText(request),
                   dir + [MANIFEST], codec.manifestText(Manifest(root, id, affected)), slot);
  }

  /** What BackupsMade says, in terms of the slots of the affected files alone. */
  lemma BackupsMadeBySlots(root: Path, dir: Path, before: Files, backedUp: Files, files: set<Path>)
    requires BackupsMade(Slots(root, dir, files), dir, before, backedUp, Existing(before, files))
    ensures var slots := Slots(root, dir, Existing(before, files));
            if AnyShadowed(before, slots) then SomeBackupLost(backedUp, slots)
            else BackedUp(Slots(root, dir, files), dir, before, backedUp, Existing(before, files))
  {
    assert Restrict(Slots(root, dir, files), Existing(before, files)) == Slots(root, dir, Existing(before, files));
  }

  lemma StepsMakeSession(codec: Codec, root: Path, id: string, request: RenameRequest,
                         before: Files, backedUp: Files, edited: Files, after: Files, records: seq<EditRecord>)
    requires NoneUnder(SessionDir(root, id), FilesOf(records)) && PrefixFree(after.Keys)
    requires SessionSteps(codec, root, id, request, before, backedUp, edited, after, records)
    ensures SessionWritten(codec, root, id, request, before, after, records)
  {
    var dir, affected := SessionDir(root, id), Affected(before, records);
    DocumentsUnderDir(dir);
    StepsEditOutside(codec, root, id, request, before, backedUp, edited, after, records);
    assert affected == Existing(before, FilesOf(records));
    BackupsMadeBySlots(root, dir, before, backedUp, FilesOf(records));
    StepsWriteBackups(codec, root, id, request, before, backedUp, edited, after, records);
  }

  lemma StepsWriteBackups(codec: Codec, root: Path, id: string, request: RenameRequest,
                          before: Files, backedUp: Files, edited: Files, after: Files, records: seq<EditRecord>)
    requires NoneUnder(SessionDir(root, id), FilesOf(records)) && PrefixFree(after.Keys)
    requires var dir, affected := SessionDir(root, id), Affected(before, records);
             if AnyShadowed(before, Slots(root, dir, affected))
             then SomeBackupLost(backedUp, Slots(root, dir, affected))
             else BackedUp(Slots(root, dir, FilesOf(records)), dir, before, backedUp, affected)
    requires PartlyEdited(backedUp, edited, records, FilesOf(records))
    requires var dir := SessionDir(root, id);
             after == edited[dir + [REQUEST] := codec.requestText(request)]
                            [dir + [MANIFEST] := codec.manifestText(Manifest(root, id, Affected(before, records)))]
    ensures BackupsWritten(codec, root, id, request, before, after, Affected(before, records))
  {
    var affected := Affected(before, records);
    var slots := Slots(root, SessionDir(root, id), affected);
    if AnyShadowed(before, slots) {
      LostStaysLost(slots, backedUp, after);
    } else {
      forall p | p in affected ensures SlotWritten(codec, root, id, request, before, after, affected, p) {
        StepsFillSlots(codec, root, id, request, before, backedUp, edited, after, records, p);
      }
    }
  }

  lemma DocumentsUnderDir(dir: Path)
    ensures Under(dir, dir + [REQUEST]) && Under(dir, dir + [MANIFEST]) && dir + [REQUEST] != dir + [MANIFEST]
  {
    assert (dir + [REQUEST])[|dir|] == REQUEST && (dir + [MANIFEST])[|dir|] == MANIFEST;
  }

  /** The paths on disk and those of a session. */
  function PathsWith(before: Files, root: Path, dir: Path, files: set<Path>): set<Path> {
    before.Keys + SessionPaths(root, dir, Existing(before, files))
  }

  /** Backing up, editing and recording add nothing but paths of the session. */
  lemma KeysStayAmong(root: Path, dir: Path, before: Files, backedUp: Files, now: Files, files: set<Path>)
    requires BackedUp(Slots(root, dir, files), dir, before, backedUp, Existing(before, files))
    requires OnlyThese(backedUp, now, Existing(backedUp, files) + Documents(dir))
    ensures backedUp.Keys <= now.Keys <= PathsWith(before, root, dir, files)
    ensures Documents(dir) + Existing(before, files) <= PathsWith(before, root, dir, files)
  {
    var slots, paths := Slots(root, dir, files), PathsWith(before, root, dir, files);
    forall f | f in SlotSet(slots, Existing(before, files)) ensures f in paths {
      var p :| p in Existing(before, files) && f == slots[p];
      assert f == Slot(root, dir, p);
    }
    assert backedUp.Keys <= paths;
    forall f | f in now ensures f in paths {
      if f !in backedUp {
        assert f in Existing(backedUp, files) + Documents(dir);
      }
    }
  }

  /** The backups of a session whose slots are no directories can be copied back, however far editing and
      recording got. */
  lemma BackupsCanBeRestored(root: Path, dir: Path, before: Files, backedUp: Files, now: Files, files: set<Path>)
    requires NoneUnder(dir, files) && PrefixFree(now.Keys)
    requires BackedUp(Slots(root, dir, files), dir, before, backedUp, Existing(before, files))
    requires OnlyThese(backedUp, now, Existing(backedUp, files) + Documents(dir))
    ensures CanRestore(now, Slots(root, dir, Existing(before, files)))
  {
    var affected := Existing(before, files);
    var slots := Slots(root, dir, affected);
    forall p | p in affected ensures slots[p] in now {
      var q := SlotSource(root, dir, before, backedUp, files, affected, p);
    }
    assert now.Keys + slots.Keys == now.Keys by {
      OutsideStays(dir, before, backedUp, now, files, affected);
    }
    SlotsAreNoOriginals(root, dir, affected);
    CanRestoreBackups(now, slots);
  }

  lemma OutsideStays(dir: Path, before: Files, backedUp: Files, now: Files, files: set<Path>, affected: set<Path>)
    requires NoneUnder(dir, files) && affected == Existing(before, files)
    requires SameOutside(dir, before, backedUp) && backedUp.Keys <= now.Keys
    ensures affected <= now.Keys
  {
    forall p | p in affected ensures p in now {
      assert !Under(dir, p);
    }
  }

  lemma SlotsAreNoOriginals(root: Path, dir: Path, affected: set<Path>)
    requires NoneUnder(dir, affected)
    ensures OriginalsAreNotBackups(Slots(root, dir, affected))
  {
    var slots := Slots(root, dir, affected);
    SlotsUnderDir(root, dir, affected);
    forall p | p in affected ensures p !in slots.Values {
    }
  }

  /** Copying them back undoes the session exactly if every slot holds the original content. */
  lemma RestoringUndoesExactly(root: Path, dir: Path, before: Files, backedUp: Files, now: Files, files: set<Path>)
    requires NoneUnder(dir, files)
    requires BackedUp(Slots(root, dir, files), dir, before, backedUp, Existing(before, files))
    requires OnlyThese(backedUp, now, Existing(backedUp, files) + Documents(dir))
    ensures var slots := Slots(root, dir, Existing(before, files));
            SameOutside(dir, before, Restored(now, slots)) <==> BackupsIntact(slots, before, now, Existing(before, files))
  {
    var affected := Existing(before, files);
    var slots := Slots(root, dir, affected);
    DocumentsUnderDir(dir);
    assert Existing(backedUp, files) == affected;
    forall p | p in affected ensures slots[p] in now {
      var q := SlotSource(root, dir, before, backedUp, files, affected, p);
    }
    if BackupsIntact(slots, before, now, affected) {
      RestoreGivesBack(slots, dir, before, now, affected);
    } else {
      RestoreGivesOther(slots, dir, before, now, affected);
    }
  }

  lemma KeptSlot(root: Path, dir: Path, backedUp: Files, now: Files, files: set<Path>, may: set<Path>, p: Path)
    requires NoneUnder(dir, files) && OnlyThese(backedUp, now, Existing(backedUp, files) + may)
    requires Slot(root, dir, p) in backedUp && Slot(root, dir, p) !in may
    ensures Slot(root, dir, p) in now && now[Slot(root, dir, p)] == backedUp[Slot(root, dir, p)]
  {
    assert Under(dir, Slot(root, dir, p));
  }

  /** The documents of the session hold the contents of the files whose slots they are. */
  predicate DocumentsHold(before: Files, now: Files, root: Path, dir: Path, affected: set<Path>)
    requires affected <= before.Keys
  {
    forall p :: p in affected && Slot(root, dir, p) in Documents(dir) ==>
      Slot(root, dir, p) in now && now[Slot(root, dir, p)] == before[p]
  }

  lemma SeparateAgrees(before: Files, now: Files, root: Path, dir: Path, affected: set<Path>)
    requires affected <= before.Keys && Separate(before, root, dir, affected)
    ensures SharedSlotsAgree(before, root, dir, affected) && DocumentsHold(before, now, root, dir, affected)
  {
  }

  /** Exactly when a session that failed while editing or recording is undone, whatever its paths and however
      far it got: files sharing a slot had the same content, and a document in the place of a slot holds it. */
  lemma FailureIsUndoneExactly(root: Path, dir: Path, before: Files, backedUp: Files, now: Files, files: set<Path>)
    requires NoneUnder(dir, files) && PrefixFree(now.Keys)
    requires BackedUp(Slots(root, dir, files), dir, before, backedUp, Existing(before, files))
    requires OnlyThese(backedUp, now, Existing(backedUp, files) + Documents(dir))
    ensures var affected := Existing(before, files);
            var slots := Slots(root, dir, affected);
            CanRestore(now, slots) &&
            (SameOutside(dir, before, Restored(now, slots)) <==>
              SharedSlotsAgree(before, root, dir, affected) && DocumentsHold(before, now, root, dir, affected))
  {
    var affected := Existing(before, files);
    var slots := Slots(root, dir, affected);
    BackupsCanBeRestored(root, dir, before, backedUp, now, files);
    RestoringUndoesExactly(root, dir, before, backedUp, now, files);
    IntactExactly(root, dir, before, backedUp, now, files);
  }

  lemma IntactExactly(root: Path, dir: Path, before: Files, backedUp: Files, now: Files, files: set<Path>)
    requires NoneUnder(dir, files)
    requires BackedUp(Slots(root, dir, files), dir, before, backedUp, Existing(before, files))
    requires OnlyThese(backedUp, now, Existing(backedUp, files) + Documents(dir))
    ensures var affected := Existing(before, files);
            BackupsIntact(Slots(root, dir, affected), before, now, affected) <==>
            SharedSlotsAgree(before, root, dir, affected) && DocumentsHold(before, now, root, dir, affected)
  {
    var affected := Existing(before, files);
    var slots := Slots(root, dir, affected);
    if SharedSlotsAgree(before, root, dir, affected) && DocumentsHold(before, now, root, dir, affected) {
      forall p | p in affected ensures slots[p] in now && now[slots[p]] == before[p] {
        if slots[p] !in Documents(dir) {
          var q := SlotSource(root, dir, before, backedUp, files, affected, p);
          KeptSlot(root, dir, backedUp, now, files, Documents(dir), p);
        }
      }
    }
    if BackupsIntact(slots, before, now, affected) {
      forall p | p in affected ensures slots[p] == Slot(root, dir, p) && slots[p] in now && now[slots[p]] == before[p] {
      }
    }
  }

  /** Whatever a failed write left in the documents. */
  lemma FailureIsUndone(root: Path, dir: Path, before: Files, backedUp: Files, now: Files, files: set<Path>)
    requires NoneUnder(dir, files) && PrefixFree(now.Keys)
    requires BackedUp(Slots(root, dir, files), dir, before, backedUp, Existing(before, files))
    requires OnlyThese(backedUp, now, Existing(backedUp, files) + Documents(dir))
    ensures var affected := Existing(before, files);
            var slots := Slots(root, dir, affected);
            CanRestore(now, slots) &&
            (Separate(before, root, dir, affected) ==> SameOutside(dir, before, Restored(now, slots)))
  {
    FailureIsUndoneExactly(root, dir, before, backedUp, now, files);
    if Separate(before, root, dir, Existing(before, files)) {
      SeparateAgrees(before, now, root, dir, Existing(before, files));
    }
  }

  /** A session that failed while editing: its documents were never in the way. */
  lemma FailedEditIsUndoneExactly(root: Path, dir: Path, before: Files, backedUp: Files, now: Files, files: set<Path>)
    requires NoneUnder(dir, files) && PrefixFree(now.Keys)
    requires BackedUp(Slots(root, dir, files), dir, before, backedUp, Existing(before, files))
    requires OnlyThese(backedUp, now, Existing(backedUp, files))
    ensures var affected := Existing(before, files);
            var slots := Slots(root, dir, affected);
            CanRestore(now, slots) &&
            (SameOutside(dir, before, Restored(now, slots)) <==> SharedSlotsAgree(before, root, dir, affected))
  {
    var affected := Existing(before, files);
    OnlyMore(backedUp, now, Existing(backedUp, files), Documents(dir));
    FailureIsUndoneExactly(root, dir, before, backedUp, now, files);
    if SharedSlotsAgree(before, root, dir, affected) {
      forall p | p in affected ensures Slot(root, dir, p) in now && now[Slot(root, dir, p)] == before[p] {
        UntouchedSlot(root, dir, before, backedUp, now, files, p);
      }
      assert DocumentsHold(before, now, root, dir, affected);
    }
  }

  lemma UntouchedSlot(root: Path, dir: Path, before: Files, backedUp: Files, now: Files, files: set<Path>, p: Path)
    requires NoneUnder(dir, files) && p in Existing(before, files)
    requires BackedUp(Slots(root, dir, files), dir, before, backedUp, Existing(before, files))
    requires OnlyThese(backedUp, now, Existing(backedUp, files))
    ensures Slot(root, dir, p) in now
    ensures SharedSlotsAgree(before, root, dir, Existing(before, files)) ==> now[Slot(root, dir, p)] == before[p]
  {
    var q := SlotSource(root, dir, before, backedUp, files, Existing(before, files), p);
    assert Existing(backedUp, files) + {} == Existing(backedUp, files);
    KeptSlot(root, dir, backedUp, now, files, {}, p);
  }

  /** Every file whose slot is the request has the written request as content. */
  predicate RequestAgrees(before: Files, root: Path, dir: Path, affected: set<Path>, text: string)
    requires affected <= before.Keys
  {
    forall p :: p in affected && Slot(root, dir, p) == dir + [REQUEST] ==> before[p] == text
  }

  /** The files after recording stopped because a document was obstructed. */
  predicate RecordObstructed(edited: Files, now: Files, dir: Path, text: string) {
    now == if Free(edited, dir + [REQUEST]) then edited[dir + [REQUEST] := text] else edited
  }

  /** A session all of whose files were edited, and one of whose documents was obstructed. */
  lemma FailedRecordIsUndoneExactly(root: Path, dir: Path, before: Files, backedUp: Files, edited: Files, now: Files,
                                    files: set<Path>, text: string)
    requires NoneUnder(dir, files) && PrefixFree(edited.Keys) && PrefixFree(now.Keys)
    requires BackedUp(Slots(root, dir, files), dir, before, backedUp, Existing(before, files))
    requires OnlyThese(backedUp, edited, Existing(backedUp, files)) && RecordObstructed(edited, now, dir, text)
    ensures var affected := Existing(before, files);
            var slots := Slots(root, dir, affected);
            CanRestore(now, slots) &&
            (SameOutside(dir, before, Restored(now, slots)) <==>
              SharedSlotsAgree(before, root, dir, affected) && RequestAgrees(before, root, dir, affected, text))
  {
    var affected := Existing(before, files);
    var slots := Slots(root, dir, affected);
    OnlyTheseAdd(backedUp, edited, now, Existing(backedUp, files), Documents(dir));
    FailureIsUndoneExactly(root, dir, before, backedUp, now, files);
    if SharedSlotsAgree(before, root, dir, affected) {
      ObstructedDocumentsHold(root, dir, before, backedUp, edited, now, files, text);
    }
  }

  lemma ObstructedDocumentsHold(root: Path, dir: Path, before: Files, backedUp: Files, edited: Files, now: Files,
                                files: set<Path>, text: string)
    requires NoneUnder(dir, files) && PrefixFree(edited.Keys)
    requires BackedUp(Slots(root, dir, files), dir, before, backedUp, Existing(before, files))
    requires OnlyThese(backedUp, edited, Existing(backedUp, files)) && RecordObstructed(edited, now, dir, text)
    requires SharedSlotsAgree(before, root, dir, Existing(before, files))
    ensures DocumentsHold(before, now, root, dir, Existing(before, files)) <==>
            RequestAgrees(before, root, dir, Existing(before, files), text)
  {
    assert dir + [REQUEST] in Documents(dir);
    forall p | p in Existing(before, files)
      ensures var slot := Slot(root, dir, p);
              slot in now && now[slot] == if slot == dir + [REQUEST] then text else before[p]
    {
      UntouchedSlot(root, dir, before, backedUp, edited, files, p);
      if Slot(root, dir, p) == dir + [REQUEST] {
        assert Free(edited, dir + [REQUEST]);
      }
    }
  }

  /** Backups one of which is a directory cannot be copied back, also after editing and recording. */
  lemma LostBackupsStayLost(root: Path, dir: Path, before: Files, backedUp: Files, now: Files, files: set<Path>)
    requires BackupsMade(Slots(root, dir, files), dir, before, backedUp, Existing(before, files))
    requires backedUp.Keys <= now.Keys && PrefixFree(now.Keys)
    ensures var slots := Slots(root, dir, Existing(before, files));
            AnyShadowed(before, slots) ==> SomeBackupLost(now, slots)
  {
    BackupsMadeBySlots(root, dir, before, backedUp, files);
    var slots := Slots(root, dir, Existing(before, files));
    if AnyShadowed(before, slots) {
      LostStaysLost(slots, backedUp, now);
    }
  }

  lemma UnobstructedBackups(root: Path, dir: Path, before: Files, backedUp: Files, now: Files, files: set<Path>)
    requires Unobstructed(before, root, dir, Existing(before, files))
    requires BackupsMade(Slots(root, dir, files), dir, before, backedUp, Existing(before, files))
    requires OnlyThese(backedUp, now, Existing(backedUp, files) + Documents(dir))
    ensures BackedUp(Slots(root, dir, files), dir, before, backedUp, Existing(before, files))
    ensures PrefixFree(backedUp.Keys + Documents(dir))
  {
    UnobstructedIsNotShadowed(before, root, dir, Existing(before, files));
    BackupsMadeBySlots(root, dir, before, backedUp, files);
    KeysStayAmong(root, dir, before, backedUp, now, files);
    PrefixFreeSubset(backedUp.Keys + Documents(dir), PathsWith(before, root, dir, files));
  }

  ghost predicate EditedNotRecorded(before: Files, now: Files, records: seq<EditRecord>, dir: Path, text: string) {
    exists edited :: PartlyEdited(before, edited, records, FilesOf(records)) && RecordObstructed(edited, now, dir, text)
  }

  ghost predicate EditedAndRecorded(before: Files, after: Files, records: seq<EditRecord>, dir: Path,
                                    requestText: string, manifestText: string)
  {
    exists edited :: PartlyEdited(before, edited, records, FilesOf(records)) &&
                     after == edited[dir + [REQUEST] := requestText][dir + [MANIFEST] := manifestText]
  }

  /** What copying the backups back would do after a session has failed. */
  ghost predicate UndoIs(root: Path, dir: Path, before: Files, now: Files, affected: set<Path>, text: string,
                         recording: bool, obstructed: bool)
    requires affected <= before.Keys
  {
    var slots, agree := Slots(root, dir, affected), SharedSlotsAgree(before, root, dir, affected);
    if AnyShadowed(before, slots) then SomeBackupLost(now, slots)
    else
      var undone := SameOutside(dir, before, Restored(now, slots));
      CanRestore(now, slots) && (Separate(before, root, dir, affected) ==> undone) &&
      (!recording ==> (undone <==> agree)) &&
      (recording && obstructed ==> (undone <==> agree && RequestAgrees(before, root, dir, affected, text)))
  }

  lemma FailedSession(root: Path, dir: Path, documents: seq<(Path, seq<TextEdit>)>, before: Files, backedUp: Files,
                      now: Files, records: seq<EditRecord>, text: string, recording: bool, obstructed: bool)
    requires RecordsOf(before, documents, records) && NamesOutside(dir, documents)
    requires PrefixFree(backedUp.Keys) && PrefixFree(now.Keys)
    requires BackupsMade(Slots(root, dir, FilesOf(records)), dir, before, backedUp, Affected(before, records))
    requires OnlyThese(backedUp, now, Existing(backedUp, FilesOf(records)) + Documents(dir))
    requires !recording ==> OnlyThese(backedUp, now, Existing(backedUp, FilesOf(records)))
    requires recording && obstructed ==> EditedNotRecorded(backedUp, now, records, dir, text)
    ensures Targets(before, documents) == Affected(before, records)
    ensures UndoIs(root, dir, before, now, Targets(before, documents), text, recording, obstructed)
    ensures Unobstructed(before, root, dir, Targets(before, documents)) ==> PrefixFree(backedUp.Keys + Documents(dir))
  {
    var files, affected := FilesOf(records), Affected(before, records);
    TargetsAreAffected(before, documents, records);
    NamesOutsideMeansNoneUnder(dir, before, documents, records);
    assert Existing(before, files) == affected;
    LostBackupsStayLost(root, dir, before, backedUp, now, files);
    if !AnyShadowed(before, Slots(root, dir, affected)) {
      BackupsMadeBySlots(root, dir, before, backedUp, files);
      FailureIsUndone(root, dir, before, backedUp, now, files);
      if !recording {
        FailedEditIsUndoneExactly(root, dir, before, backedUp, now, files);
      } else if obstructed {
        var edited :| PartlyEdited(backedUp, edited, records, files) && RecordObstructed(edited, now, dir, text);
        PartlyEditedTouchesOnly(backedUp, edited, records, files);
        FailedRecordIsUndoneExactly(root, dir, before, backedUp, edited, now, files, text);
      }
    }
    if Unobstructed(before, root, dir, affected) {
      UnobstructedBackups(root, dir, before, backedUp, now, files);
    }
  }

  /** The effect of writing some of the documents of a session. */
  ghost predicate RecordEffect(before: Files, coming: seq<Fate>, after: Files, left: seq<Fate>, docs: set<Path>, ok: bool) {
    OnlyThese(before, after, docs) && after.Keys <= before.Keys + docs && FailuresIn(left) <= FailuresIn(coming) &&
    (!ok && PrefixFree(before.Keys + docs) ==> FailuresIn(left) < FailuresIn(coming))
  }

  lemma WriteRecords(before: Files, coming: seq<Fate>, after: Files, left: seq<Fate>, path: Path, content: string,
                     ok: bool, docs: set<Path>)
    requires PrefixFree(before.Keys) && path in docs
    requires WriteEffect(before, coming, after, left, path, content, ok)
    ensures RecordEffect(before, coming, after, left, docs, ok)
  {
    WriteKeepsPrefixFree(before, coming, after, left, path, content, ok);
    if PrefixFree(before.Keys + docs) {
      FreeAmong(before, before.Keys + docs, path);
    }
  }

  lemma RecordEffectsAdd(before: Files, coming: seq<Fate>, between: Files, left: seq<Fate>, after: Files, last: seq<Fate>,
                         docs: set<Path>, ok: bool)
    requires RecordEffect(before, coming, between, left, docs, true) && RecordEffect(between, left, after, last, docs, ok)
    ensures RecordEffect(before, coming, after, last, docs, ok)
  {
    OnlyTheseAdd(before, between, after, docs, docs);
    assert docs + docs == docs;
    assert between.Keys + docs == before.Keys + docs;
  }

  lemma OnlyMore(before: Files, now: Files, may: set<Path>, more: set<Path>)
    requires OnlyThese(before, now, may)
    ensures OnlyThese(before, now, may + more)
  {
  }

  lemma OnlyTheseAdd(before: Files, between: Files, after: Files, may: set<Path>, more: set<Path>)
    requires OnlyThese(before, between, may) && OnlyThese(between, after, more)
    ensures OnlyThese(before, after, may + more)
  {
  }

  // ----- the service

  /** How applying ends: normally with the records, or with an exception while backing up, while editing or
      while recording the session. */
  datatype Outcome = Returned(records: seq<EditRecord>) | BackupRaised | EditRaised | RecordRaised

  class RenameService {
    const manager: BackupManager

    constructor (manager: BackupManager)
      ensures this.manager == manager
    {
      this.manager := manager;
    }

    method ExtractEditRecords(edit: WorkspaceEdit) returns (records: seq<EditRecord>)
      ensures RecordsOf(manager.disk.files, DocumentEdits(edit), records)
      ensures RecordsAsAsked(edit, records)
    {
      records := [];
      if edit.documentChanges.None? || edit.documentChanges.value == [] {
        if edit.changes.Some? {
          var changes := edit.changes.value;
          for i := 0 to |changes|
            invariant RecordsOf(manager.disk.files, changes[..i], records)
          {
            var more := ReadEditRecords(changes[i].0, changes[i].1);
            RecordsOfAppend(manager.disk.files, changes[..i], records, changes[i].0, changes[i].1, more);
            assert changes[..i + 1] == changes[..i] + [(changes[i].0, changes[i].1)];
            records := records + more;
          }
          assert changes[..|changes|] == changes;
        }
      } else {
        var changes := edit.documentChanges.value;
        for i := 0 to |changes|
          invariant RecordsOf(manager.disk.files, TextDocumentEdits(changes[..i]), records)
        {
          var change := changes[i];
          assert changes[..i + 1][..i] == changes[..i];
          assert !IsTextDocumentEdit(change) ==> TextDocumentEdits(changes[..i + 1]) == TextDocumentEdits(changes[..i]);
          if change.kind != None {
            continue;
          }
          if change.textDocument.None? || change.edits.None? {
            continue;
          }
          var more := ReadEditRecords(change.textDocument.value, change.edits.value);
          RecordsOfAppend(manager.disk.files, TextDocumentEdits(changes[..i]), records,
                          change.textDocument.value, change.edits.value, more);
          records := records + more;
        }
        assert changes[..|changes|] == changes;
      }
      ExtractedAsAsked(manager.disk.files, edit, records);
    }

    method ReadEditRecords(file: Path, edits: seq<TextEdit>) returns (records: seq<EditRecord>)
      ensures |records| == |edits|
      ensures forall k :: 0 <= k < |edits| ==>
        records[k].file == file && TextEdit(records[k].range, records[k].newText) == edits[k] &&
        CarriesOldText(manager.disk.files, records[k])
    {
      var content := if file in manager.disk.files then manager.disk.files[file] else "";
      records := CreateEditRecords(file, content, edits);
    }

    /** Writes every existing file named by a record with its edits applied. */
    method ApplyEdits(records: seq<EditRecord>) returns (ok: bool)
      requires manager.disk.Valid()
      modifies manager.disk
      ensures manager.disk.Valid()
      ensures FailuresIn(manager.disk.fates) + (if ok then 0 else 1) == FailuresIn(old(manager.disk.fates))
      ensures ok ==> PartlyEdited(old(manager.disk.files), manager.disk.files, records, FilesOf(records))
      ensures OnlyThese(old(manager.disk.files), manager.disk.files,
                        Existing(old(manager.disk.files), FilesOf(records)))
    {
      var disk := manager.disk;
      ghost var before := disk.files;
      var byFile := GroupByFile(records);
      var rest := byFile.Keys;
      while rest != {}
        invariant disk.Valid() && rest <= byFile.Keys
        invariant PartlyEdited(before, disk.files, records, byFile.Keys - rest)
        invariant FailuresIn(disk.fates) == FailuresIn(old(disk.fates))
        decreases rest
      {
        var p :| p in rest;
        OneMoreEdited(before, disk.files, records, byFile.Keys - rest, p);
        assert byFile.Keys - (rest - {p}) == byFile.Keys - rest + {p};
        if p in disk.files {
          var result := EditContent(disk.files[p], EditsOf(byFile[p], p));
          PartlyEditedTouchesOnly(before, disk.files, records, byFile.Keys - rest);
          ghost var now := disk.files;
          ok := disk.Write(p, result);
          if !ok {
            FailedWriteTouchesOnly(before, now, disk.files, Existing(before, FilesOf(records)), p);
            return;
          }
        }
        rest := rest - {p};
      }
      assert byFile.Keys - rest == FilesOf(records);
      PartlyEditedTouchesOnly(before, disk.files, records, FilesOf(records));
      ok := true;
    }

    method GroupByFile(records: seq<EditRecord>) returns (byFile: map<Path, seq<EditRecord>>)
      ensures byFile.Keys == FilesOf(records)
      ensures forall p :: p in byFile ==> EditsOf(byFile[p], p) == EditsOf(records, p)
    {
      byFile := map[];
      for i := 0 to |records|
        invariant byFile.Keys == FilesOf(records[..i])
        invariant forall p :: p in byFile ==> EditsOf(byFile[p], p) == EditsOf(records[..i], p)
      {
        var record := records[i];
        assert records[..i + 1] == records[..i] + [record];
        var group := if record.file in byFile then byFile[record.file] else [];
        var grown := byFile[record.file := group + [record]];
        forall p | p in grown ensures EditsOf(grown[p], p) == EditsOf(records[..i + 1], p) {
          EditsOfAppend(records[..i], [record], p);
          if p == record.file {
            EditsOfAppend(group, [record], p);
            NoEditsElsewhere(records[..i], p);
          } else {
            assert EditsOf([record], p) == [];
          }
        }
        assert FilesOf(records[..i + 1]) == FilesOf(records[..i]) + {record.file};
        byFile := grown;
      }
      assert records[..|records|] == records;
    }

    /** Writes the two documents of a session. */
    method RecordSession(session: RenameSession) returns (ok: bool)
      requires manager.disk.Valid()
      modifies manager.disk
      ensures manager.disk.Valid()
      ensures RecordEffect(old(manager.disk.files), old(manager.disk.fates), manager.disk.files, manager.disk.fates,
                           Documents(session.backupDir), ok)
      ensures !ok && FailuresIn(manager.disk.fates) == FailuresIn(old(manager.disk.fates)) ==>
                RecordObstructed(old(manager.disk.files), manager.disk.files, session.backupDir,
                                 manager.codec.requestText(session.request))
      ensures ok ==>
                manager.disk.files ==
                  old(manager.disk.files)
                    [session.backupDir + [REQUEST] := manager.codec.requestText(session.request)]
                    [session.backupDir + [MANIFEST] := manager.codec.manifestText(
                      RenameManifest(session.sessionId, session.affectedFiles, session.status))]
    {
      ghost var docs := Documents(session.backupDir);
      ghost var before, coming := manager.disk.files, manager.disk.fates;
      ok := manager.WriteRequestJson(session);
      ghost var between, left := manager.disk.files, manager.disk.fates;
      WriteRecords(before, coming, between, left, session.backupDir + [REQUEST],
                   manager.codec.requestText(session.request), ok, docs);
      if !ok { return; }
      ok := manager.WriteManifest(session);
      WriteRecords(between, left, manager.disk.files, manager.disk.fates, session.backupDir + [MANIFEST],
                   manager.codec.manifestText(
                     RenameManifest(session.sessionId, session.affectedFiles, session.status)), ok, docs);
      RecordEffectsAdd(before, coming, between, left, manager.disk.files, manager.disk.fates, docs, ok);
    }

    /** The part of applying that is undone on failure. */
    method EditAndRecord(session: RenameSession, records: seq<EditRecord>) returns (ok: bool)
      requires manager.disk.Valid() && session.status == Pending
      modifies manager.disk, session`status
      ensures manager.disk.Valid() && FailuresIn(manager.disk.fates) <= FailuresIn(old(manager.disk.fates))
      ensures !ok && PrefixFree(old(manager.disk.files).Keys + Documents(session.backupDir)) ==>
                FailuresIn(manager.disk.fates) < FailuresIn(old(manager.disk.fates))
      ensures OnlyThese(old(manager.disk.files), manager.disk.files,
                        Existing(old(manager.disk.files), FilesOf(records)) + Documents(session.backupDir))
      ensures session.status == Pending || session.status == Applied
      ensures session.status == Pending ==>
                !ok && FailuresIn(manager.disk.fates) < FailuresIn(old(manager.disk.fates)) &&
                OnlyThese(old(manager.disk.files), manager.disk.files,
                          Existing(old(manager.disk.files), FilesOf(records)))
      ensures !ok && FailuresIn(manager.disk.fates) == FailuresIn(old(manager.disk.fates)) ==>
                EditedNotRecorded(old(manager.disk.files), manager.disk.files, records, session.backupDir,
                                  manager.codec.requestText(session.request))
      ensures ok ==>
                session.status == Applied &&
                EditedAndRecorded(old(manager.disk.files), manager.disk.files, records, session.backupDir,
                                  manager.codec.requestText(session.request),
                                  manager.codec.manifestText(
                                    RenameManifest(session.sessionId, session.affectedFiles, Applied)))
    {
      ghost var before, docs := manager.disk.files, Documents(session.backupDir);
      ok := ApplyEdits(records);
      ghost var edited := manager.disk.files;
      OnlyMore(before, edited, Existing(before, FilesOf(records)), docs);
      if !ok { return; }
      session.status := Applied;
      ok := RecordSession(session);
      OnlyTheseAdd(before, edited, manager.disk.files, Existing(before, FilesOf(records)), docs);
      assert edited.Keys == before.Keys;
    }

    /** Edits and records a backed up session; a failure of either is undone from the backups. */
    method ApplyOrUndo(session: RenameSession, records: seq<EditRecord>, ghost before: Files,
                       ghost documents: seq<(Path, seq<TextEdit>)>)
      returns (outcome: Outcome)
      requires manager.codec.Faithful() && manager.disk.Valid() && session.status == Pending
      requires session.backupDir == SessionDir(manager.workspace, session.sessionId)
      requires records != [] && RecordsOf(before, documents, records)
      requires NamesOutside(session.backupDir, documents) ==>
                 session.affectedFiles == Slots(manager.workspace, session.backupDir, Affected(before, records)) &&
                 BackupsMade(Slots(manager.workspace, session.backupDir, FilesOf(records)), session.backupDir,
                             before, manager.disk.files, Affected(before, records))
      modifies manager.disk, session`status
      ensures manager.disk.Valid()
      ensures Transaction(manager.codec, manager.workspace, session.sessionId, session.request, documents,
                          before, manager.disk.files, FailuresIn(old(manager.disk.fates)), outcome, session.status)
    {
      ghost var backedUp, failures := manager.disk.files, FailuresIn(manager.disk.fates);
      ghost var root, dir := manager.workspace, session.backupDir;
      ghost var text, outside := manager.codec.requestText(session.request), NamesOutside(dir, documents);
      var ok := EditAndRecord(session, records);
      if ok {
        if outside {
          Committed(manager.codec, root, session.sessionId, session.request, documents, before, backedUp,
                    manager.disk.files, failures, records);
        }
        return Returned(records);
      }
      ghost var now, left := manager.disk.files, FailuresIn(manager.disk.fates);
      var recording := session.status == Applied;
      if outside {
        FailedSession(root, dir, documents, before, backedUp, now, records, text, recording, left == failures);
      }
      ok := manager.Restore(session);
      if ok {
        session.status := Failed;
      }
      if outside {
        UndoneTransaction(manager.codec, root, session.sessionId, session.request, documents, before, now,
                          manager.disk.files, failures, left, recording, ok);
      }
      outcome := if recording then RecordRaised else EditRaised;
    }

    /** Backs up the files of some records, edits them and records the session. */
    method BackUpAndApply(session: RenameSession, records: seq<EditRecord>, ghost documents: seq<(Path, seq<TextEdit>)>)
      returns (outcome: Outcome)
      requires manager.codec.Faithful() && manager.disk.Valid()
      requires session.status == Pending && session.affectedFiles == map[]
      requires session.backupDir == SessionDir(manager.workspace, session.sessionId)
      requires records != [] && RecordsOf(manager.disk.files, documents, records)
      modifies manager.disk, session`status, session`affectedFiles
      ensures manager.disk.Valid()
      ensures Transaction(manager.codec, manager.workspace, session.sessionId, session.request, documents,
                          old(manager.disk.files), manager.disk.files, FailuresIn(old(manager.disk.fates)),
                          outcome, session.status)
    {
      ghost var before := manager.disk.files;
      BackupsOfRecords(manager.workspace, session.backupDir, before, documents, records);
      var ok := manager.BackupFiles(session, FilesOf(records));
      if !ok {
        return BackupRaised;
      }
      outcome := ApplyOrUndo(session, records, before, documents);
    }

    /** Applies a fetched workspace edit: Transaction says what each way of ending means for the files. */
    method ApplyFromEdit(edit: Option<WorkspaceEdit>, request: RenameRequest, sessionId: string)
      returns (outcome: Outcome, session: RenameSession)
      requires manager.codec.Faithful() && manager.disk.Valid()
      modifies manager, manager.disk
      ensures manager.disk.Valid()
      ensures fresh(session) && manager.sessions == old(manager.sessions)[sessionId := session]
      ensures edit == None ==>
                outcome == Returned([]) && session.status == Failed && manager.disk.files == old(manager.disk.files)
      ensures edit.Some? ==>
                Transaction(manager.codec, manager.workspace, sessionId, request, DocumentEdits(edit.value),
                            old(manager.disk.files), manager.disk.files, FailuresIn(old(manager.disk.fates)),
                            outcome, session.status)
      ensures edit.Some? && outcome.Returned? && TouchesNothingUnder(SessionDir(manager.workspace, sessionId), edit.value) ==>
                EditedAsAsked(SessionDir(manager.workspace, sessionId), edit.value, old(manager.disk.files),
                              manager.disk.files)
    {
      ghost var before := manager.disk.files;
      session := manager.CreateSession(sessionId, request);
      if edit == None {
        session.status := Failed;
        return Returned([]), session;
      }
      ghost var dir, documents := SessionDir(manager.workspace, sessionId), DocumentEdits(edit.value);
      var records := ExtractEditRecords(edit.value);
      if records == [] {
        session.status := Applied;
        outcome := Returned([]);
        NothingToApply(manager.codec, manager.workspace, sessionId, request, documents, before,
                       FailuresIn(manager.disk.fates));
      } else {
        outcome := BackUpAndApply(session, records, documents);
      }
      if outcome.Returned? && TouchesNothingUnder(dir, edit.value) {
        AppliedAsAsked(manager.codec, manager.workspace, sessionId, request, edit.value, before, manager.disk.files,
                       FailuresIn(old(manager.disk.fates)), outcome.records, session.status);
      }
    }
  }

  predicate NamesOutside(dir: Path, documents: seq<(Path, seq<TextEdit>)>) {
    forall k :: 0 <= k < |documents| ==> !Under(dir, documents[k].0)
  }

  /** What applying a workspace edit guarantees about files and status. */
  ghost predicate Transaction(codec: Codec, root: Path, id: string, request: RenameRequest,
                              documents: seq<(Path, seq<TextEdit>)>, before: Files, after: Files,
                              failures: nat, outcome: Outcome, status: Status)
  {
    var dir, targets := SessionDir(root, id), Targets(before, documents);
    NamesOutside(dir, documents) ==>
      match outcome
      case Returned(records) =>
        status == Applied && RecordsOf(before, documents, records) &&
        (records == [] ==> after == before) &&
        (records != [] ==> SessionWritten(codec, root, id, request, before, after, records)) &&
        (Recoverable(before, root, dir, targets) ==> SessionApplied(codec, root, id, before, after, records))
      case BackupRaised =>
        status == Pending && SameOutside(dir, before, after) &&
        (Unobstructed(before, root, dir, targets) ==> failures > 0)
      case EditRaised =>
        failures > 0 &&
        if AnyShadowed(before, Slots(root, dir, targets)) then status == Pending
        else failures == 1 ==>
          status == Failed && (SameOutside(dir, before, after) <==> SharedSlotsAgree(before, root, dir, targets))
      case RecordRaised =>
        (Unobstructed(before, root, dir, targets) ==> failures > 0) &&
        if AnyShadowed(before, Slots(root, dir, targets)) then status == Applied
        else
          (failures <= 1 && Recoverable(before, root, dir, targets) ==>
            status == Failed && SameOutside(dir, before, after)) &&
          (failures == 0 ==>
            status == Failed &&
            (SameOutside(dir, before, after) <==>
              SharedSlotsAgree(before, root, dir, targets) &&
              RequestAgrees(before, root, dir, targets, codec.requestText(request))))
  }

  lemma UndoneTransaction(codec: Codec, root: Path, id: string, request: RenameRequest,
                          documents: seq<(Path, seq<TextEdit>)>, before: Files, now: Files, after: Files,
                          failures: nat, left: nat, recording: bool, ok: bool)
    requires var dir, targets := SessionDir(root, id), Targets(before, documents);
             UndoIs(root, dir, before, now, targets, codec.requestText(request), recording, left == failures) &&
             left <= failures && (!recording || Unobstructed(before, root, dir, targets) ==> left < failures)
    requires var slots := Slots(root, SessionDir(root, id), Targets(before, documents));
             if ok then !SomeBackupLost(now, slots) && (CanRestore(now, slots) ==> after == Restored(now, slots))
             else CanRestore(now, slots) ==> left > 0
    ensures Transaction(codec, root, id, request, documents, before, after, failures,
                        if recording then RecordRaised else EditRaised,
                        if ok then Failed else if recording then Applied else Pending)
  {
    var dir, targets := SessionDir(root, id), Targets(before, documents);
    if Unobstructed(before, root, dir, targets) {
      UnobstructedIsNotShadowed(before, root, dir, targets);
    }
  }

  /** All or nothing: where backups do not collide, and at most one write fails or else nothing fails but a
      document of the session may be obstructed, applying either returns with every affected file edited or
      raises with every file as it was. */
  lemma AllOrNothing(codec: Codec, root: Path, id: string, request: RenameRequest,
                     documents: seq<(Path, seq<TextEdit>)>, before: Files, after: Files,
                     failures: nat, outcome: Outcome, status: Status)
    requires Transaction(codec, root, id, request, documents, before, after, failures, outcome, status)
    requires var dir, targets := SessionDir(root, id), Targets(before, documents);
             NamesOutside(dir, documents) && Separate(before, root, dir, targets) &&
             !AnyShadowed(before, Slots(root, dir, targets)) &&
             (failures == 0 || (failures == 1 && Unobstructed(before, root, dir, targets)))
    ensures match outcome
            case Returned(records) =>
              RecordsOf(before, documents, records) && EditedOutside(SessionDir(root, id), before, after, records)
            case _ => SameOutside(SessionDir(root, id), before, after)
  {
  }

  lemma Committed(codec: Codec, root: Path, id: string, request: RenameRequest,
                  documents: seq<(Path, seq<TextEdit>)>, before: Files, backedUp: Files,
                  after: Files, failures: nat, records: seq<EditRecord>)
    requires codec.Faithful() && records != [] && PrefixFree(after.Keys)
    requires NamesOutside(SessionDir(root, id), documents) && RecordsOf(before, documents, records)
    requires var dir, affected := SessionDir(root, id), Affected(before, records);
             BackupsMade(Slots(root, dir, FilesOf(records)), dir, before, backedUp, affected) &&
             EditedAndRecorded(backedUp, after, records, dir, codec.requestText(request),
                               codec.manifestText(Manifest(root, id, affected)))
    ensures Transaction(codec, root, id, request, documents, before, after, failures, Returned(records), Applied)
  {
    var dir, affected := SessionDir(root, id), Affected(before, records);
    var edited :| PartlyEdited(backedUp, edited, records, FilesOf(records)) &&
      after == edited[dir + [REQUEST] := codec.requestText(request)]
                     [dir + [MANIFEST] := codec.manifestText(Manifest(root, id, affected))];
    NamesOutsideMeansNoneUnder(dir, before, documents, records);
    StepsMakeSession(codec, root, id, request, before, backedUp, edited, after, records);
    TargetsAreAffected(before, documents, records);
    if Recoverable(before, root, SessionDir(root, id), Affected(before, records)) {
      RecoverableSessionIsApplied(codec, root, id, request, before, after, records);
    }
  }

  lemma BackupsOfRecords(root: Path, dir: Path, before: Files, documents: seq<(Path, seq<TextEdit>)>,
                         records: seq<EditRecord>)
    requires RecordsOf(before, documents, records)
    ensures Existing(before, FilesOf(records)) == Affected(before, records) == Targets(before, documents)
    ensures Restrict(Slots(root, dir, FilesOf(records)), Affected(before, records)) ==
            Slots(root, dir, Affected(before, records))
    ensures NamesOutside(dir, documents) ==> NoneUnder(dir, FilesOf(records))
  {
    TargetsAreAffected(before, documents, records);
    if NamesOutside(dir, documents) {
      NamesOutsideMeansNoneUnder(dir, before, documents, records);
    }
  }

  lemma NothingToApply(codec: Codec, root: Path, id: string, request: RenameRequest,
                       documents: seq<(Path, seq<TextEdit>)>, before: Files, failures: nat)
    requires RecordsOf(before, documents, [])
    ensures Transaction(codec, root, id, request, documents, before, before, failures, Returned([]), Applied)
  {
  }

  /** What returning from a transaction means in terms of the workspace edit alone. */
  lemma AppliedAsAsked(codec: Codec, root: Path, id: string, request: RenameRequest, edit: WorkspaceEdit,
                       before: Files, after: Files, failures: nat, records: seq<EditRecord>, status: Status)
    requires Transaction(codec, root, id, request, DocumentEdits(edit), before, after, failures, Returned(records), status)
    requires TouchesNothingUnder(SessionDir(root, id), edit)
    ensures EditedAsAsked(SessionDir(root, id), edit, before, after)
  {
    var dir := SessionDir(root, id);
    NothingNamedUnder(dir, edit);
    ExtractedAsAsked(before, edit, records);
    forall p | !Under(dir, p) && p in before ensures p in after && HoldsEditsOf(edit, p, before[p], after[p]) {
      assert Assembled(edit, p, EditsOf(records, p));
      NoEditsElsewhere(records, p);
      EditedByNothing(before[p]);
    }
  }

  lemma NothingNamedUnder(dir: Path, edit: WorkspaceEdit)
    requires TouchesNothingUnder(dir, edit)
    ensures NamesOutside(dir, DocumentEdits(edit))
  {
    if edit.documentChanges.Some? && edit.documentChanges.value != [] {
      DocumentsOutside(dir, edit.documentChanges.value);
    }
  }

  lemma {:induction false} DocumentsOutside(dir: Path, changes: seq<DocumentChange>)
    requires forall k :: 0 <= k < |changes| ==>
      changes[k].kind == None && changes[k].textDocument.Some? && changes[k].edits.Some? ==>
        !Under(dir, changes[k].textDocument.value)
    ensures NamesOutside(dir, TextDocumentEdits(changes))
    decreases |changes|
  {
    if changes != [] {
      DocumentsOutside(dir, changes[..|changes| - 1]);
    }
  }

  lemma NamesOutsideMeansNoneUnder(dir: Path, before: Files, documents: seq<(Path, seq<TextEdit>)>, records: seq<EditRecord>)
    requires NamesOutside(dir, documents) && RecordsOf(before, documents, records)
    ensures NoneUnder(dir, FilesOf(records))
  {
    forall p | p in FilesOf(records) ensures !Under(dir, p) {
      EditsOfPresent(records, p);
      assert EditsOf(records, p) == EditsFor(documents, p);
      NamedInDocuments(documents, p);
    }
  }

  lemma {:induction false} NamedInDocuments(documents: seq<(Path, seq<TextEdit>)>, p: Path)
    requires EditsFor(documents, p) != []
    ensures exists k :: 0 <= k < |documents| && documents[k].0 == p
  {
    var last := |documents| - 1;
    if documents[last].0 != p {
      NamedInDocuments(documents[..last], p);
      var k :| 0 <= k < |documents[..last]| && documents[..last][k].0 == p;
      assert documents[k].0 == p;
    }
  }

  /** A file whose edits neither overlap nor share a start holds, after an applied session, the
      simultaneous replacement of its original content. */
  lemma AppliedFilesHaveTheirMeaning(dir: Path, edit: WorkspaceEdit, before: Files, after: Files, p: Path,
                                     all: seq<TextEdit>)
    requires EditedAsAsked(dir, edit, before, after) && p in before && !Under(dir, p)
    requires Assembled(edit, p, all) && Disjoint(Split(before[p], NEWLINE), all)
    ensures p in after && after[p] == Simultaneous(before[p], FlatArray(Split(before[p], NEWLINE), all), 0)
  {
    var edits :| Assembled(edit, p, edits) && after[p] == Edited(before[p], edits);
    AssembledOnce(edit, p, edits, all);
    EditedIsSimultaneous(before[p], all);
  }

  lemma EditedByNothing(content: string)
    ensures Edited(content, []) == content
  {
    JoinSplit(content, NEWLINE);
  }
}

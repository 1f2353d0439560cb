/** What a rename session leaves on disk and what rolling it back makes of it. */
module RenameSessions {
  import opened Wrappers
  import opened TextEdits
  import opened BottomUp
  import opened FileSystem

  const SESSIONS_DIR: Path := [".llm-lsp-cli", "rename_sessions"]
  const MANIFEST := "manifest.json"
  const REQUEST := "request.json"

  datatype Status = Pending | Applied | RolledBack | Failed

  datatype RenameRequest = RenameRequest(file: string, position: Position, newName: string)

  datatype RenameManifest = RenameManifest(sessionId: string, affectedFiles: map<Path, Path>, status: Status)

  /** The JSON texts written to a session directory. */
  datatype Codec = Codec(
    manifestText: RenameManifest -> string,
    manifestFrom: string -> Option<RenameManifest>,
    requestText: RenameRequest -> string)
  {
    /** Reading a written manifest gives it back. */
    ghost predicate Faithful() {
      forall m :: manifestFrom(manifestText(m)) == Some(m)
    }
  }

  datatype EditRecord = EditRecord(file: Path, range: Range, oldText: string, newText: string)

  /** The edits recorded for one file, in order. */
  function EditsOf(records: seq<EditRecord>, p: Path): seq<TextEdit> {
    if records == [] then []
    else EditOf(records[0], p) + EditsOf(records[1..], p)
  }

  function EditOf(record: EditRecord, p: Path): seq<TextEdit> {
    if record.file == p then [TextEdit(record.range, record.newText)] else []
  }

  function FilesOf(records: seq<EditRecord>): set<Path> {
    set r | r in records :: r.file
  }

  /** The files a session changes: those of its records that exist. */
  function Affected(files: Files, records: seq<EditRecord>): set<Path> {
    set p | p in FilesOf(records) && p in files
  }

  function SessionDir(root: Path, id: string): Path {
    root + SESSIONS_DIR + [id]
  }

  /** Where a file is backed up: under its path relative to the workspace, or under its bare name. */
  function Slot(root: Path, dir: Path, p: Path): Path {
    if root <= p then dir + p[|root|..] else if p == [] then dir else dir + [p[|p| - 1]]
  }

  function Documents(dir: Path): set<Path> {
    {dir + [REQUEST], dir + [MANIFEST]}
  }

  /** The paths a session writes in its directory. */
  function SessionPaths(root: Path, dir: Path, affected: set<Path>): set<Path> {
    (set p | p in affected :: Slot(root, dir, p)) + Documents(dir)
  }

  /** Neither a file on disk nor a path of the session is in the way of a path of the session. */
  predicate Unobstructed(files: Files, root: Path, dir: Path, affected: set<Path>) {
    PrefixFree(files.Keys + SessionPaths(root, dir, affected))
  }

  /** Files that share a slot have the same content. */
  predicate SharedSlotsAgree(files: Files, root: Path, dir: Path, affected: set<Path>)
    requires affected <= files.Keys
  {
    forall p, q :: p in affected && q in affected && Slot(root, dir, p) == Slot(root, dir, q) ==> files[p] == files[q]
  }

  /** Every backup slot can serve all the files that share it, and none is overwritten by the session's own
      two documents; no affected file lies in the session directory. */
  predicate Separate(files: Files, root: Path, dir: Path, affected: set<Path>)
    requires affected <= files.Keys
  {
    (forall p :: p in affected ==>
      !Under(dir, p) && Slot(root, dir, p) != dir + [MANIFEST] && Slot(root, dir, p) != dir + [REQUEST]) &&
    SharedSlotsAgree(files, root, dir, affected)
  }

  /** The backups of a session can be written and hold the original contents. */
  predicate Recoverable(files: Files, root: Path, dir: Path, affected: set<Path>)
    requires affected <= files.Keys
  {
    Unobstructed(files, root, dir, affected) && Separate(files, root, dir, affected)
  }

  /** An affected file inside the workspace, outside the sessions directory and not in the place
      of one of the session's documents. */
  predicate Ordinary(root: Path, p: Path) {
    root <= p && !Under(root + SESSIONS_DIR, p) && !Under(root + [MANIFEST], p) && !Under(root + [REQUEST], p)
  }

  /** A directory that can be created and in which there is nothing yet. */
  predicate Fresh(files: Files, dir: Path) {
    forall p :: p in files ==> !(p <= dir) && !(dir <= p)
  }

  /** Inside the workspace a slot is the path moved to the session directory. */
  lemma SlotInside(root: Path, dir: Path, p: Path)
    requires root <= p
    ensures Under(dir, Slot(root, dir, p)) && Slot(root, dir, p)[|dir|..] == p[|root|..]
  {
  }

  /** Outside the workspace two files share a slot exactly if they have the same name, wherever they are. */
  lemma OutsideSlotsCollideExactly(root: Path, dir: Path, p: Path, q: Path)
    requires !(root <= p) && !(root <= q) && p != [] && q != []
    ensures Slot(root, dir, p) == dir + [p[|p| - 1]]
    ensures Slot(root, dir, p) == Slot(root, dir, q) <==> p[|p| - 1] == q[|q| - 1]
  {
    assert (dir + [p[|p| - 1]])[|dir|] == p[|p| - 1] && (dir + [q[|q| - 1]])[|dir|] == q[|q| - 1];
  }

  lemma SlotsKeepPrefixes(root: Path, dir: Path, p: Path, q: Path)
    requires root <= p && root <= q
    ensures Slot(root, dir, p) < Slot(root, dir, q) ==> p < q
    ensures Slot(root, dir, p) == Slot(root, dir, q) ==> p == q
  {
    var s, t := Slot(root, dir, p), Slot(root, dir, q);
    SlotInside(root, dir, p);
    SlotInside(root, dir, q);
    assert p == root + p[|root|..] && q == root + q[|root|..];
    if s < t {
      assert t[..|s|][|dir|..] == t[|dir|..][..|s| - |dir|];
    }
  }

  lemma SlotBelow(root: Path, dir: Path, p: Path, name: string)
    requires root <= p
    ensures dir + [name] <= Slot(root, dir, p) ==> Under(root + [name], p)
    ensures Slot(root, dir, p) < dir + [name] ==> p == root
  {
    var slot := Slot(root, dir, p);
    SlotInside(root, dir, p);
    assert p == root + p[|root|..];
    if dir + [name] <= slot {
      assert slot[|dir|] == name == p[|root|];
    }
  }

  /** Two paths of which one leads to the other and one lies in a directory. */
  lemma AroundDirectory(f: Path, dir: Path, s: Path)
    requires dir <= s
    ensures f < s ==> f <= dir || dir <= f
    ensures s < f ==> dir <= f
  {
  }

  lemma OrdinaryPathsAreUnobstructed(files: Files, root: Path, id: string, affected: set<Path>)
    requires PrefixFree(files.Keys) && Fresh(files, SessionDir(root, id)) && affected <= files.Keys
    requires forall p :: p in affected ==> Ordinary(root, p)
    ensures Unobstructed(files, root, SessionDir(root, id), affected)
  {
    var dir := SessionDir(root, id);
    var paths := SessionPaths(root, dir, affected);
    forall s | s in paths ensures Under(dir, s) && s != dir {
      if p :| p in affected && s == Slot(root, dir, p) {
        SlotInside(root, dir, p);
        assert p != root by {
          assert root <= dir;
        }
      }
    }
    forall f, s | f in files && s in paths ensures !(f < s) && !(s < f) {
      AroundDirectory(f, dir, s);
    }
    forall s, t | s in paths && t in paths ensures !(s < t) {
      SessionPathsApart(files, root, id, affected, s, t);
    }
  }

  lemma SlotApartFromDocument(root: Path, id: string, p: Path, d: Path)
    requires Ordinary(root, p) && p != root && d in Documents(SessionDir(root, id))
    ensures var slot := Slot(root, SessionDir(root, id), p); !(slot < d) && !(d <= slot)
  {
    SlotBelow(root, SessionDir(root, id), p, MANIFEST);
    SlotBelow(root, SessionDir(root, id), p, REQUEST);
  }

  lemma SessionPathsApart(files: Files, root: Path, id: string, affected: set<Path>, s: Path, t: Path)
    requires PrefixFree(files.Keys) && Fresh(files, SessionDir(root, id)) && affected <= files.Keys
    requires forall p :: p in affected ==> Ordinary(root, p)
    requires s in SessionPaths(root, SessionDir(root, id), affected)
    requires t in SessionPaths(root, SessionDir(root, id), affected)
    ensures !(s < t)
  {
    var dir := SessionDir(root, id);
    assert root <= dir && root !in affected;
    if s in Documents(dir) && t in Documents(dir) {
      assert |s| == |t|;
    } else if s in Documents(dir) {
      var q :| q in affected && t == Slot(root, dir, q);
      SlotApartFromDocument(root, id, q, s);
    } else {
      var p :| p in affected && s == Slot(root, dir, p);
      if t in Documents(dir) {
        SlotApartFromDocument(root, id, p, t);
      } else {
        var q :| q in affected && t == Slot(root, dir, q);
        SlotsKeepPrefixes(root, dir, p, q);
      }
    }
  }

  /** Ordinary files of a consistent disk never get in each other's way in a fresh session directory. */
  lemma OrdinaryFilesAreRecoverable(files: Files, root: Path, id: string, affected: set<Path>)
    requires PrefixFree(files.Keys) && Fresh(files, SessionDir(root, id)) && affected <= files.Keys
    requires forall p :: p in affected ==> Ordinary(root, p)
    ensures Recoverable(files, root, SessionDir(root, id), affected)
  {
    var dir := SessionDir(root, id);
    OrdinaryPathsAreUnobstructed(files, root, id, affected);
    forall p | p in affected
      ensures !Under(dir, p) && Slot(root, dir, p) != dir + [MANIFEST] && Slot(root, dir, p) != dir + [REQUEST]
    {
      SlotBelow(root, dir, p, MANIFEST);
      SlotBelow(root, dir, p, REQUEST);
    }
    forall p, q | p in affected && q in affected && Slot(root, dir, p) == Slot(root, dir, q) ensures p == q {
      SlotsKeepPrefixes(root, dir, p, q);
    }
  }

  function Slots(root: Path, dir: Path, affected: set<Path>): map<Path, Path> {
    map p | p in affected :: Slot(root, dir, p)
  }

  function Manifest(root: Path, id: string, affected: set<Path>): RenameManifest {
    RenameManifest(id, Slots(root, SessionDir(root, id), affected), Applied)
  }

  // ----- the file system after a session

  /** Some slot is a directory: a file on disk or another slot lies below it. */
  predicate AnyShadowed(files: Files, slots: map<Path, Path>) {
    exists p, f :: p in slots && f in files.Keys + slots.Values && slots[p] < f
  }

  /** Some listed backup is a directory instead of a file. */
  predicate SomeBackupLost(files: Files, slots: map<Path, Path>) {
    exists p :: p in slots && slots[p] !in files && IsDirectory(files, slots[p])
  }

  /** Outside the session directory exactly the affected files changed, and they are fully edited. */
  ghost predicate EditedOutside(dir: Path, before: Files, after: Files, records: seq<EditRecord>) {
    forall p :: !Under(dir, p) ==>
      (p in before <==> p in after) &&
      (p in before && p in after ==>
        after[p] == if p in FilesOf(records) then Edited(before[p], EditsOf(records, p)) else before[p])
  }

  /** What a slot of an affected file holds once the session is complete. */
  ghost predicate SlotWritten(codec: Codec, root: Path, id: string, request: RenameRequest,
                              before: Files, after: Files, affected: set<Path>, p: Path)
    requires p in affected && affected <= before.Keys
  {
    var dir := SessionDir(root, id);
    var slot := Slot(root, dir, p);
    slot in after &&
    if slot == dir + [MANIFEST] then after[slot] == codec.manifestText(Manifest(root, id, affected))
    else if slot == dir + [REQUEST] then after[slot] == codec.requestText(request)
    else exists q :: q in affected && Slot(root, dir, q) == slot && after[slot] == before[q]
  }

  /** What became of the backups: if a slot is a directory one of them is lost, otherwise every slot is
      written, whether or not others got in its way. */
  ghost predicate BackupsWritten(codec: Codec, root: Path, id: string, request: RenameRequest,
                                 before: Files, after: Files, affected: set<Path>)
    requires affected <= before.Keys
  {
    var slots := Slots(root, SessionDir(root, id), affected);
    if AnyShadowed(before, slots) then SomeBackupLost(after, slots)
    else forall p :: p in affected ==> SlotWritten(codec, root, id, request, before, after, affected, p)
  }

  /** A session applied without a failing write. */
  ghost predicate SessionWritten(codec: Codec, root: Path, id: string, request: RenameRequest,
                                 before: Files, after: Files, records: seq<EditRecord>)
  {
    var dir, affected := SessionDir(root, id), Affected(before, records);
    EditedOutside(dir, before, after, records) &&
    BackupsWritten(codec, root, id, request, before, after, affected) &&
    dir + [MANIFEST] in after && after[dir + [MANIFEST]] == codec.manifestText(Manifest(root, id, affected)) &&
    dir + [REQUEST] in after && after[dir + [REQUEST]] == codec.requestText(request)
  }

  /** A session whose backups hold the original contents; without records it leaves no trace. */
  ghost predicate SessionApplied(codec: Codec, root: Path, id: string,
                                 before: Files, after: Files, records: seq<EditRecord>)
  {
    var dir, affected := SessionDir(root, id), Affected(before, records);
    if records == [] then after == before
    else
      EditedOutside(dir, before, after, records) &&
      (forall p :: p in affected ==> Slot(root, dir, p) in after && after[Slot(root, dir, p)] == before[p]) &&
      dir + [MANIFEST] in after &&
      codec.manifestFrom(after[dir + [MANIFEST]]) == Some(Manifest(root, id, affected))
  }

  lemma UnobstructedIsNotShadowed(files: Files, root: Path, dir: Path, affected: set<Path>)
    requires Unobstructed(files, root, dir, affected)
    ensures !AnyShadowed(files, Slots(root, dir, affected))
  {
    var slots, paths := Slots(root, dir, affected), files.Keys + SessionPaths(root, dir, affected);
    forall p, f | p in slots && f in files.Keys + slots.Values ensures !(slots[p] < f) {
      assert slots[p] in paths && f in paths;
    }
  }

  lemma RecoverableSessionIsApplied(codec: Codec, root: Path, id: string, request: RenameRequest,
                                    before: Files, after: Files, records: seq<EditRecord>)
    requires codec.Faithful() && records != []
    requires SessionWritten(codec, root, id, request, before, after, records)
    requires Recoverable(before, root, SessionDir(root, id), Affected(before, records))
    ensures SessionApplied(codec, root, id, before, after, records)
  {
    UnobstructedIsNotShadowed(before, root, SessionDir(root, id), Affected(before, records));
    forall p | p in Affected(before, records)
      ensures var slot := Slot(root, SessionDir(root, id), p); slot in after && after[slot] == before[p]
    {
      SeparateSlotHolds(codec, root, id, request, before, after, Affected(before, records), p);
    }
  }

  lemma SeparateSlotHolds(codec: Codec, root: Path, id: string, request: RenameRequest,
                          before: Files, after: Files, affected: set<Path>, p: Path)
    requires affected <= before.Keys && p in affected && Separate(before, root, SessionDir(root, id), affected)
    requires SlotWritten(codec, root, id, request, before, after, affected, p)
    ensures var slot := Slot(root, SessionDir(root, id), p); slot in after && after[slot] == before[p]
  {
    var dir := SessionDir(root, id);
    assert SharedSlotsAgree(before, root, dir, affected);
    var q :| q in affected && Slot(root, dir, q) == Slot(root, dir, p) && after[Slot(root, dir, p)] == before[q];
  }

  // ----- rolling back

  /** Every listed file takes the content of its backup, where there is one. */
  function Restored(files: Files, affected: map<Path, Path>): Files {
    map p | p in files.Keys + affected.Keys && (p in files || affected[p] in files) ::
      if p in affected && affected[p] in files then files[affected[p]] else files[p]
  }

  /** No listed file is itself a backup. */
  predicate OriginalsAreNotBackups(affected: map<Path, Path>) {
    affected.Keys !! affected.Values
  }

  datatype RollbackError = SessionNotFound | ManifestNotFound | InvalidManifest | CopyFailed

  function RollbackById(codec: Codec, root: Path, files: Files, id: string): Result<Files, RollbackError> {
    var dir := SessionDir(root, id);
    if forall p | p in files :: !Under(dir, p) then Err(SessionNotFound)
    else if dir + [MANIFEST] !in files then Err(ManifestNotFound)
    else match codec.manifestFrom(files[dir + [MANIFEST]])
      case None => Err(InvalidManifest)
      case Some(manifest) =>
        if SomeBackupLost(files, manifest.affectedFiles) then Err(CopyFailed)
        else Ok(WithoutTree(Restored(files, manifest.affectedFiles), dir))
  }

  /** The backups of an applied session are never originals of it. */
  lemma ManifestListsNoBackups(root: Path, id: string, affected: set<Path>)
    requires forall p :: p in affected ==> !Under(SessionDir(root, id), p)
    ensures OriginalsAreNotBackups(Manifest(root, id, affected).affectedFiles)
  {
    var slots := Slots(root, SessionDir(root, id), affected);
    forall p | p in affected ensures p !in slots.Values {
      assert forall q :: q in affected ==> Under(SessionDir(root, id), slots[q]);
    }
  }

  /** Rolling back a session gives the files before it, without anything that was in its directory. */
  lemma RollbackEmptiesDirectory(codec: Codec, root: Path, id: string,
                                 before: Files, after: Files, records: seq<EditRecord>)
    requires SessionApplied(codec, root, id, before, after, records) && records != []
    requires forall p :: p in Affected(before, records) ==> !Under(SessionDir(root, id), p)
    ensures RollbackById(codec, root, after, id) == Ok(WithoutTree(before, SessionDir(root, id)))
  {
    var dir, affected := SessionDir(root, id), Affected(before, records);
    assert Under(dir, dir + [MANIFEST]);
    var slots := codec.manifestFrom(after[dir + [MANIFEST]]).value.affectedFiles;
    var restored, expected := WithoutTree(Restored(after, slots), dir), WithoutTree(before, dir);
    forall p ensures p in restored <==> p in expected {
      if p in restored && p in affected { }
    }
    forall p | p in expected ensures restored[p] == expected[p] {
      if p in affected {
        assert slots[p] == Slot(root, dir, p);
      }
    }
    assert restored == expected;
  }

  /** Rolling back the last session of a run gives the files as they were before it. */
  lemma RollbackUndoesSession(codec: Codec, root: Path, id: string,
                              before: Files, after: Files, records: seq<EditRecord>)
    requires SessionApplied(codec, root, id, before, after, records)
    requires forall p :: p in before ==> !Under(SessionDir(root, id), p)
    ensures RollbackById(codec, root, after, id) == if records == [] then Err(SessionNotFound) else Ok(before)
  {
    if records != [] {
      RollbackEmptiesDirectory(codec, root, id, before, after, records);
      assert WithoutTree(before, SessionDir(root, id)) == before;
    }
  }

  /** A second session with the id of the first takes its place: rolling back undoes the second one and leaves
      nothing to undo the first one with. So the first is undone only if it had changed nothing. */
  lemma RepeatedIdLosesSession(codec: Codec, root: Path, id: string, first: Files, second: Files, third: Files,
                               earlier: seq<EditRecord>, later: seq<EditRecord>)
    requires earlier != [] && later != []
    requires SessionApplied(codec, root, id, first, second, earlier) && SessionApplied(codec, root, id, second, third, later)
    requires forall p :: p in first ==> !Under(SessionDir(root, id), p)
    requires forall p :: p in Affected(second, later) ==> !Under(SessionDir(root, id), p)
    ensures var rolledBack := WithoutTree(second, SessionDir(root, id));
            RollbackById(codec, root, third, id) == Ok(rolledBack) &&
            RollbackById(codec, root, rolledBack, id) == Err(SessionNotFound) &&
            (rolledBack == first <==>
              forall p :: p in Affected(first, earlier) ==> Edited(first[p], EditsOf(earlier, p)) == first[p])
  {
    RollbackEmptiesDirectory(codec, root, id, second, third, later);
    LeftOfSession(SessionDir(root, id), first, second, earlier);
  }

  /** What a session leaves without its directory. */
  lemma LeftOfSession(dir: Path, before: Files, after: Files, records: seq<EditRecord>)
    requires EditedOutside(dir, before, after, records) && forall p :: p in before ==> !Under(dir, p)
    ensures WithoutTree(after, dir) == before <==>
            forall p :: p in Affected(before, records) ==> Edited(before[p], EditsOf(records, p)) == before[p]
  {
    var left := WithoutTree(after, dir);
    assert left.Keys == before.Keys;
    forall p | p in before
      ensures left[p] == if p in Affected(before, records) then Edited(before[p], EditsOf(records, p)) else before[p]
    {
      assert !Under(dir, p);
    }
  }

  /** Files sharing a backup slot had the same content, and a file whose slot is one of the session's
      documents had that document as content. */
  ghost predicate BackupsKeepContents(codec: Codec, root: Path, id: string, request: RenameRequest,
                                      before: Files, affected: set<Path>)
    requires affected <= before.Keys
  {
    var dir := SessionDir(root, id);
    forall p :: p in affected ==>
      var slot := Slot(root, dir, p);
      if slot == dir + [MANIFEST] then before[p] == codec.manifestText(Manifest(root, id, affected))
      else if slot == dir + [REQUEST] then before[p] == codec.requestText(request)
      else forall q :: q in affected && Slot(root, dir, q) == slot ==> before[q] == before[p]
  }

  predicate AllRestored(before: Files, result: Result<Files, RollbackError>, affected: set<Path>)
    requires affected <= before.Keys
  {
    result.Ok? && forall p :: p in affected ==> p in result.value && result.value[p] == before[p]
  }

  /** What rollback reads from the disk after a session. */
  lemma RollbackOfWritten(codec: Codec, root: Path, id: string, request: RenameRequest,
                          before: Files, after: Files, records: seq<EditRecord>)
    requires codec.Faithful() && SessionWritten(codec, root, id, request, before, after, records)
    ensures var slots := Manifest(root, id, Affected(before, records)).affectedFiles;
            RollbackById(codec, root, after, id) ==
            if SomeBackupLost(after, slots) then Err(CopyFailed)
            else Ok(WithoutTree(Restored(after, slots), SessionDir(root, id)))
  {
    var dir, manifest := SessionDir(root, id), Manifest(root, id, Affected(before, records));
    assert Under(dir, dir + [MANIFEST]);
    assert codec.manifestFrom(codec.manifestText(manifest)) == Some(manifest);
  }

  lemma RestoredFromSlot(codec: Codec, root: Path, id: string, request: RenameRequest,
                         before: Files, after: Files, affected: set<Path>, p: Path)
    requires affected <= before.Keys && p in affected && !Under(SessionDir(root, id), p)
    requires SlotWritten(codec, root, id, request, before, after, affected, p)
    ensures var slots, slot := Slots(root, SessionDir(root, id), affected), Slot(root, SessionDir(root, id), p);
            var files := WithoutTree(Restored(after, slots), SessionDir(root, id));
            slot in after && p in files && files[p] == after[slot]
  {
  }

  lemma WrittenSlotsKeepContents(codec: Codec, root: Path, id: string, request: RenameRequest,
                                 before: Files, after: Files, affected: set<Path>)
    requires affected <= before.Keys
    requires forall p :: p in affected ==> SlotWritten(codec, root, id, request, before, after, affected, p)
    ensures (forall p :: p in affected ==>
              var slot := Slot(root, SessionDir(root, id), p); slot in after && after[slot] == before[p]) <==>
            BackupsKeepContents(codec, root, id, request, before, affected)
  {
  }

  /** Exactly when rollback brings back every affected file, whatever their paths: no slot is a directory,
      files sharing a slot had the same content, and a file whose slot is one of the session's documents
      had that document as content. */
  lemma RollbackRestoresExactly(codec: Codec, root: Path, id: string, request: RenameRequest,
                                before: Files, after: Files, records: seq<EditRecord>)
    requires codec.Faithful()
    requires SessionWritten(codec, root, id, request, before, after, records)
    requires forall p :: p in Affected(before, records) ==> !Under(SessionDir(root, id), p)
    ensures var affected := Affected(before, records);
            AllRestored(before, RollbackById(codec, root, after, id), affected) <==>
            !AnyShadowed(before, Slots(root, SessionDir(root, id), affected)) &&
            BackupsKeepContents(codec, root, id, request, before, affected)
  {
    var affected := Affected(before, records);
    var slots := Slots(root, SessionDir(root, id), affected);
    RollbackOfWritten(codec, root, id, request, before, after, records);
    if !AnyShadowed(before, slots) {
      forall p | p in affected
        ensures var files := WithoutTree(Restored(after, slots), SessionDir(root, id));
                slots[p] in after && p in files && files[p] == after[slots[p]]
      {
        RestoredFromSlot(codec, root, id, request, before, after, affected, p);
      }
      WrittenSlotsKeepContents(codec, root, id, request, before, after, affected);
    }
  }

  // ----- runs of sessions

  datatype Session = Session(id: string, records: seq<EditRecord>)

  ghost predicate Run(codec: Codec, root: Path, states: seq<Files>, sessions: seq<Session>) {
    |states| == |sessions| + 1 &&
    forall i :: 0 <= i < |sessions| ==>
      SessionApplied(codec, root, sessions[i].id, states[i], states[i + 1], sessions[i].records)
  }

  ghost predicate DistinctIds(sessions: seq<Session>) {
    forall i, j :: 0 <= i < j < |sessions| ==> sessions[i].id != sessions[j].id
  }

  /** Roll back all sessions, the last one first, each from what is on disk. */
  function RollbackAll(codec: Codec, root: Path, files: Files, sessions: seq<Session>): Files
    decreases |sessions|
  {
    if sessions == [] then files
    else
      var last := |sessions| - 1;
      var result := RollbackById(codec, root, files, sessions[last].id);
      RollbackAll(codec, root, if result.Ok? then result.value else files, sessions[..last])
  }

  lemma DirectoriesAreSeparate(root: Path, id: string, other: string, p: Path)
    requires id != other && Under(SessionDir(root, id), p)
    ensures !Under(SessionDir(root, other), p)
  {
    var k := |root| + |SESSIONS_DIR|;
    assert SessionDir(root, id)[k] == id && SessionDir(root, other)[k] == other;
  }

  /** No session of the run writes into the directory of another one. */
  lemma {:induction false} StaysEmpty(codec: Codec, root: Path, states: seq<Files>, sessions: seq<Session>,
                                      id: string, i: nat)
    requires Run(codec, root, states, sessions) && i <= |sessions|
    requires forall j :: 0 <= j < i ==> sessions[j].id != id
    requires forall p :: p in states[0] ==> !Under(SessionDir(root, id), p)
    ensures forall p :: p in states[i] ==> !Under(SessionDir(root, id), p)
  {
    if i > 0 {
      StaysEmpty(codec, root, states, sessions, id, i - 1);
      assert SessionApplied(codec, root, sessions[i - 1].id, states[i - 1], states[i - 1 + 1], sessions[i - 1].records);
      forall p | p in states[i] ensures !Under(SessionDir(root, id), p) {
        if Under(SessionDir(root, id), p) {
          DirectoriesAreSeparate(root, id, sessions[i - 1].id, p);
        }
      }
    }
  }

  /** Rolling back any run of sessions with fresh, distinct ids in reverse order, each from disk,
      gives the whole file system as it was before the first session. */
  lemma {:induction false} RollbackUndoesRun(codec: Codec, root: Path, states: seq<Files>, sessions: seq<Session>)
    requires Run(codec, root, states, sessions) && DistinctIds(sessions)
    requires forall i, p :: 0 <= i < |sessions| && p in states[0] ==> !Under(SessionDir(root, sessions[i].id), p)
    ensures RollbackAll(codec, root, states[|sessions|], sessions) == states[0]
  {
    if sessions != [] {
      var last := |sessions| - 1;
      var s := sessions[last];
      StaysEmpty(codec, root, states, sessions, s.id, last);
      assert SessionApplied(codec, root, s.id, states[last], states[last + 1], s.records);
      RollbackUndoesSession(codec, root, s.id, states[last], states[last + 1], s.records);
      RollbackUndoesRun(codec, root, states[..last + 1], sessions[..last]);
    }
  }
}

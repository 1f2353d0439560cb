/** Backs up files before a rename, writes the session documents and restores files. */
module BackupManagers {
  import opened Wrappers
  import opened FileSystem
  import opened RenameSessions

  class RenameSession {
    const sessionId: string
    const request: RenameRequest
    const backupDir: Path
    var affectedFiles: map<Path, Path>
    var status: Status

    constructor (sessionId: string, request: RenameRequest, backupDir: Path)
      ensures this.sessionId == sessionId && this.request == request && this.backupDir == backupDir
      ensures affectedFiles == map[] && status == Pending
    {
      this.sessionId, this.request, this.backupDir := sessionId, request, backupDir;
      affectedFiles, status := map[], Pending;
    }
  }

  predicate NoneUnder(dir: Path, files: set<Path>) {
    forall p :: p in files ==> !Under(dir, p)
  }

  function Existing(before: Files, files: set<Path>): set<Path> {
    set p | p in files && p in before
  }

  function Restrict(slots: map<Path, Path>, affected: set<Path>): map<Path, Path>
    requires affected <= slots.Keys
  {
    map p | p in affected :: slots[p]
  }

  function SlotSet(slots: map<Path, Path>, affected: set<Path>): set<Path>
    requires affected <= slots.Keys
  {
    set p | p in affected :: slots[p]
  }

  ghost predicate SlotHolds(slots: map<Path, Path>, before: Files, after: Files, affected: set<Path>, slot: Path)
    requires affected <= slots.Keys && affected <= before.Keys
  {
    slot in after && exists q :: q in affected && slots[q] == slot && after[slot] == before[q]
  }

  /** Each slot holds the content of one of the files backed up to it, nothing outside the session
      directory changed and nothing but slots was added. */
  ghost predicate BackedUp(slots: map<Path, Path>, dir: Path, before: Files, after: Files, affected: set<Path>)
    requires affected <= slots.Keys && affected <= before.Keys
  {
    SameOutside(dir, before, after) && after.Keys <= before.Keys + SlotSet(slots, affected) &&
    forall p :: p in affected ==> SlotHolds(slots, before, after, affected, slots[p])
  }

  /** Every backup is somewhere: at its slot or, if that is a directory, inside. */
  ghost predicate Reached(slots: map<Path, Path>, before: Files, after: Files, affected: set<Path>)
    requires affected <= slots.Keys
  {
    before.Keys <= after.Keys &&
    forall p :: p in affected ==> exists f :: f in after && slots[p] <= f
  }

  /** The backups of a session: complete, or one lost because its slot is a directory. */
  ghost predicate BackupsMade(slots: map<Path, Path>, dir: Path, before: Files, after: Files, affected: set<Path>)
    requires affected <= slots.Keys && affected <= before.Keys
  {
    SameOutside(dir, before, after) && before.Keys <= after.Keys &&
    if AnyShadowed(before, Restrict(slots, affected)) then SomeBackupLost(after, Restrict(slots, affected))
    else BackedUp(slots, dir, before, after, affected)
  }

  lemma SlotsUnderDir(root: Path, dir: Path, files: set<Path>)
    ensures forall p :: p in files ==> Under(dir, Slots(root, dir, files)[p])
  {
  }

  lemma OneMoreBackup(slots: map<Path, Path>, dir: Path, before: Files, now: Files, after: Files,
                      affected: set<Path>, p: Path)
    requires affected <= slots.Keys && affected <= before.Keys
    requires BackedUp(slots, dir, before, now, affected)
    requires p in slots && Under(dir, slots[p]) && !Under(dir, p)
    requires p in now && after == now[slots[p] := now[p]]
    ensures p in before && BackedUp(slots, dir, before, after, affected + {p})
  {
    var more := affected + {p};
    forall q | q in more ensures SlotHolds(slots, before, after, more, slots[q]) {
      if slots[q] == slots[p] {
        assert p in more && after[slots[q]] == before[p];
      } else {
        assert SlotHolds(slots, before, now, affected, slots[q]);
        var r :| r in affected && slots[r] == slots[q] && now[slots[q]] == before[r];
        assert r in more;
      }
    }
  }

  lemma OneMoreReached(slots: map<Path, Path>, before: Files, now: Files, after: Files, affected: set<Path>, p: Path,
                       target: Path)
    requires affected <= slots.Keys && Reached(slots, before, now, affected)
    requires p in slots && slots[p] <= target && target in after && now.Keys <= after.Keys
    ensures Reached(slots, before, after, affected + {p})
  {
  }

  lemma OutsideUnchanged(dir: Path, before: Files, now: Files, after: Files, path: Path)
    requires SameOutside(dir, before, now) && SameExcept(path, now, after) && Under(dir, path)
    ensures SameOutside(dir, before, after)
  {
  }

  /** How far the loop over the files of a session has come. */
  ghost predicate Progress(slots: map<Path, Path>, dir: Path, before: Files, now: Files, all: set<Path>,
                           affected: set<Path>, made: map<Path, Path>)
    requires all <= slots.Keys && all <= before.Keys
  {
    affected <= all && made == Restrict(slots, affected) && Reached(slots, before, now, affected) &&
    (!AnyShadowed(before, Restrict(slots, all)) ==> BackedUp(slots, dir, before, now, affected))
  }

  /** Where no slot is a directory, copies land on their slots. */
  lemma LandsOnSlot(slots: map<Path, Path>, dir: Path, before: Files, now: Files, done: set<Path>, all: set<Path>, p: Path)
    requires done <= all <= slots.Keys && all <= before.Keys && p in all
    requires BackedUp(slots, dir, before, now, done) && !AnyShadowed(before, Restrict(slots, all))
    ensures Landing(now, p, slots[p]) == slots[p]
  {
    var made := Restrict(slots, all);
    forall f | f in now ensures !(slots[p] < f) {
      assert f in before.Keys + SlotSet(slots, done);
      assert forall q :: q in done ==> made[q] == slots[q];
      assert f in before.Keys + made.Values;
      assert made[p] == slots[p];
    }
  }

  lemma OneMoreCopied(slots: map<Path, Path>, dir: Path, before: Files, now: Files, after: Files, all: set<Path>,
                      affected: set<Path>, made: map<Path, Path>, p: Path)
    requires all <= slots.Keys && all <= before.Keys && p in all && p in now
    requires Under(dir, slots[p]) && !Under(dir, p)
    requires Progress(slots, dir, before, now, all, affected, made)
    requires after == now[Landing(now, p, slots[p]) := now[p]]
    ensures Progress(slots, dir, before, after, all, affected + {p}, made[p := slots[p]])
  {
    OneMoreReached(slots, before, now, after, affected, p, Landing(now, p, slots[p]));
    if !AnyShadowed(before, Restrict(slots, all)) {
      LandsOnSlot(slots, dir, before, now, affected, all, p);
      OneMoreBackup(slots, dir, before, now, after, affected, p);
    }
  }

  /** Where nothing of the session is obstructed, its slots can be written. */
  lemma SlotIsFree(root: Path, dir: Path, slots: map<Path, Path>, before: Files, now: Files,
                   all: set<Path>, affected: set<Path>, made: map<Path, Path>, p: Path)
    requires all <= slots.Keys && all <= before.Keys && p in all
    requires forall q :: q in all ==> slots[q] == Slot(root, dir, q)
    requires Progress(slots, dir, before, now, all, affected, made) && Unobstructed(before, root, dir, all)
    ensures Free(now, Landing(now, p, slots[p]))
  {
    UnobstructedIsNotShadowed(before, root, dir, all);
    assert Restrict(slots, all) == Slots(root, dir, all);
    LandsOnSlot(slots, dir, before, now, affected, all, p);
    var paths := before.Keys + SessionPaths(root, dir, all);
    forall f | f in now ensures f in paths {
      assert f in before.Keys + SlotSet(slots, affected);
    }
    assert slots[p] in paths;
  }

  lemma ShadowedIsLost(slots: map<Path, Path>, before: Files, after: Files, affected: set<Path>)
    requires affected <= slots.Keys && PrefixFree(after.Keys)
    requires Reached(slots, before, after, affected) && AnyShadowed(before, Restrict(slots, affected))
    ensures SomeBackupLost(after, Restrict(slots, affected))
  {
    var made := Restrict(slots, affected);
    var p, f :| p in made && f in before.Keys + made.Values && made[p] < f;
    if f in before {
      assert f in after;
    } else {
      var q :| q in made && made[q] == f;
      var g :| g in after && slots[q] <= g;
      assert made[p] < g;
    }
    assert IsDirectory(after, made[p]);
  }

  lemma NothingCopiedYet(slots: map<Path, Path>, dir: Path, before: Files, all: set<Path>)
    requires all <= slots.Keys && all <= before.Keys
    ensures Progress(slots, dir, before, before, all, {}, map[])
  {
    assert Restrict(slots, {}) == map[];
  }

  lemma AllCopied(slots: map<Path, Path>, dir: Path, before: Files, after: Files, all: set<Path>, made: map<Path, Path>)
    requires all <= slots.Keys && all <= before.Keys && PrefixFree(after.Keys)
    requires SameOutside(dir, before, after) && Progress(slots, dir, before, after, all, all, made)
    ensures made == Restrict(slots, all) && BackupsMade(slots, dir, before, after, all)
  {
    if AnyShadowed(before, Restrict(slots, all)) {
      ShadowedIsLost(slots, before, after, all);
    }
  }

  lemma DirectoryIsFree(files: Files, root: Path, dir: Path, affected: set<Path>, p: Path)
    requires Unobstructed(files, root, dir, affected) && p in files
    ensures !(p <= dir)
  {
    assert !(p < dir + [MANIFEST]);
  }

  lemma OneMoreExisting(before: Files, done: set<Path>, p: Path)
    ensures Existing(before, done + {p}) ==
            if p in before then Existing(before, done) + {p} else Existing(before, done)
  {
  }

  // ----- restoring

  /** Originals can be written over: they and the files on disk do not obstruct each other, no original
      is itself a backup, and no backup is, or becomes, a directory. */
  predicate CanRestore(files: Files, affected: map<Path, Path>) {
    OriginalsAreNotBackups(affected) && PrefixFree(files.Keys + affected.Keys) &&
    forall p, f :: p in affected && f in files.Keys + affected.Keys && affected[p] !in files ==> !(affected[p] < f)
  }

  lemma CanRestoreBackups(files: Files, affected: map<Path, Path>)
    requires OriginalsAreNotBackups(affected) && PrefixFree(files.Keys + affected.Keys)
    requires affected.Values <= files.Keys
    ensures CanRestore(files, affected)
  {
  }

  /** What RestoreById needs of a manifest holds for that of an applied session: without a failing write
      restoring it by id, with a manager that does not know it, gives the files before the session. */
  lemma AppliedSessionCanBeRestored(codec: Codec, root: Path, id: string,
                                    before: Files, after: Files, records: seq<EditRecord>)
    requires SessionApplied(codec, root, id, before, after, records) && records != [] && PrefixFree(after.Keys)
    requires forall p :: p in before ==> !Under(SessionDir(root, id), p)
    ensures var dir := SessionDir(root, id);
            var manifest := codec.manifestFrom(after[dir + [MANIFEST]]);
            RollbackById(codec, root, after, id) == Ok(before) &&
            manifest.Some? && CanRestore(after, manifest.value.affectedFiles)
  {
    var affected := Affected(before, records);
    var slots := Manifest(root, id, affected).affectedFiles;
    RollbackUndoesSession(codec, root, id, before, after, records);
    ManifestListsNoBackups(root, id, affected);
    assert after.Keys + slots.Keys == after.Keys;
    CanRestoreBackups(after, slots);
  }

  /** Everything that was written is an original or, where that is a directory, directly inside. */
  ghost predicate OnlyOriginals(before: Files, now: Files, originals: set<Path>) {
    before.Keys <= now.Keys &&
    forall f :: f in now && !(f in before && now[f] == before[f]) ==>
      exists p :: p in originals && p <= f && |f| <= |p| + 1
  }

  /** The same, and only originals were written if none of them is a directory. */
  ghost predicate WrittenOver(before: Files, now: Files, originals: set<Path>) {
    OnlyOriginals(before, now, originals) && (PrefixFree(before.Keys + originals) ==> OnlyThese(before, now, originals))
  }

  lemma OneMoreOriginal(before: Files, now: Files, after: Files, originals: set<Path>, from: Path, p: Path)
    requires WrittenOver(before, now, originals) && p in originals && SameExcept(Landing(now, from, p), now, after)
    ensures WrittenOver(before, after, originals)
  {
    OneMoreWritten(before, now, after, originals, Landing(now, from, p), p);
    if PrefixFree(before.Keys + originals) {
      assert now.Keys <= before.Keys + originals;
      assert Landing(now, from, p) == p;
      OneMoreOfThese(before, now, after, originals, p);
    }
  }

  lemma OneMoreWritten(before: Files, now: Files, after: Files, originals: set<Path>, target: Path, p: Path)
    requires OnlyOriginals(before, now, originals) && p in originals && SameExcept(target, now, after)
    requires p <= target && |target| <= |p| + 1
    ensures OnlyOriginals(before, after, originals)
  {
  }

  lemma OneMoreOfThese(before: Files, now: Files, after: Files, originals: set<Path>, p: Path)
    requires OnlyThese(before, now, originals) && p in originals && SameExcept(p, now, after)
    ensures OnlyThese(before, after, originals)
  {
  }

  /** Writing originals outside a directory leaves what is in it alone. */
  lemma DirectoryIsKept(dir: Path, before: Files, now: Files, originals: set<Path>)
    requires OnlyOriginals(before, now, originals) && PrefixFree(now.Keys) && IsDirectory(before, dir)
    requires forall p :: p in originals ==> !Under(dir, p)
    ensures SameInside(dir, before, now)
  {
    var g :| g in before && dir < g;
    assert g in now;
    forall f, p | Under(dir, f) && f in now && p in originals ensures !(p <= f && |f| <= |p| + 1) {
    }
  }

  /** What a restoration leaves alone, also if it fails: everything in the session directory and, if no
      original is a directory, every file but the originals. */
  ghost predicate LeavesForRetry(dir: Path, affected: map<Path, Path>, before: Files, now: Files) {
    (IsDirectory(before, dir) && (forall p :: p in affected ==> !Under(dir, p)) ==> SameInside(dir, before, now)) &&
    (PrefixFree(before.Keys + affected.Keys) ==> OnlyThese(before, now, affected.Keys))
  }

  lemma OriginalsLeaveForRetry(dir: Path, before: Files, now: Files, affected: map<Path, Path>)
    requires WrittenOver(before, now, affected.Keys) && PrefixFree(now.Keys)
    ensures LeavesForRetry(dir, affected, before, now)
  {
    if IsDirectory(before, dir) && forall p :: p in affected ==> !Under(dir, p) {
      DirectoryIsKept(dir, before, now, affected.Keys);
    }
  }

  /** A rollback from disk that failed can be repeated: what it left still rolls back to the files before the
      session, and nothing but a failing write can keep it from doing so. */
  lemma FailedRollbackCanBeRepeated(codec: Codec, root: Path, id: string, before: Files, after: Files, now: Files,
                                    records: seq<EditRecord>)
    requires SessionApplied(codec, root, id, before, after, records) && records != [] && PrefixFree(now.Keys)
    requires PrefixFree(after.Keys) && forall p :: p in before ==> !Under(SessionDir(root, id), p)
    requires LeavesForRetry(SessionDir(root, id), Manifest(root, id, Affected(before, records)).affectedFiles, after, now)
    ensures var dir := SessionDir(root, id);
            dir + [MANIFEST] in now && RollbackById(codec, root, now, id) == Ok(before) &&
            var manifest := codec.manifestFrom(now[dir + [MANIFEST]]);
            manifest.Some? && CanRestore(now, manifest.value.affectedFiles)
  {
    var affected := Affected(before, records);
    RetryLeaves(codec, root, id, before, after, now, records);
    PartlyRolledBack(codec, root, id, before, after, now, records);
    RollbackOfPartly(codec, root, id, before, now, affected);
    PartlyCanBeRestored(codec, root, id, before, now, affected);
  }

  lemma RetryLeaves(codec: Codec, root: Path, id: string, before: Files, after: Files, now: Files,
                    records: seq<EditRecord>)
    requires SessionApplied(codec, root, id, before, after, records) && records != [] && PrefixFree(after.Keys)
    requires forall p :: p in before ==> !Under(SessionDir(root, id), p)
    requires LeavesForRetry(SessionDir(root, id), Manifest(root, id, Affected(before, records)).affectedFiles, after, now)
    ensures SameInside(SessionDir(root, id), after, now) && OnlyThese(after, now, Affected(before, records))
  {
    SessionOnDisk(codec, root, id, before, after, records);
    RetryMeans(SessionDir(root, id), Manifest(root, id, Affected(before, records)).affectedFiles, after, now);
  }

  lemma RetryMeans(dir: Path, affected: map<Path, Path>, before: Files, now: Files)
    requires affected.Keys <= before.Keys && IsDirectory(before, dir) && PrefixFree(before.Keys)
    requires forall p :: p in affected ==> !Under(dir, p)
    requires LeavesForRetry(dir, affected, before, now)
    ensures SameInside(dir, before, now) && OnlyThese(before, now, affected.Keys)
  {
    assert before.Keys + affected.Keys == before.Keys;
  }

  lemma SessionOnDisk(codec: Codec, root: Path, id: string, before: Files, after: Files, records: seq<EditRecord>)
    requires SessionApplied(codec, root, id, before, after, records) && records != []
    requires forall p :: p in before ==> !Under(SessionDir(root, id), p)
    ensures var affected := Affected(before, records);
            Manifest(root, id, affected).affectedFiles.Keys == affected <= after.Keys &&
            IsDirectory(after, SessionDir(root, id))
  {
    var dir := SessionDir(root, id);
    assert dir < dir + [MANIFEST];
    forall p | p in Affected(before, records) ensures p in after {
      assert !Under(dir, p);
    }
  }

  lemma PartlyCanBeRestored(codec: Codec, root: Path, id: string, before: Files, now: Files, affected: set<Path>)
    requires Partly(codec, root, id, before, now, affected) && PrefixFree(now.Keys)
    requires forall p :: p in before ==> !Under(SessionDir(root, id), p)
    ensures CanRestore(now, Manifest(root, id, affected).affectedFiles)
  {
    var slots := Manifest(root, id, affected).affectedFiles;
    ManifestListsNoBackups(root, id, affected);
    assert now.Keys + slots.Keys == now.Keys;
    CanRestoreBackups(now, slots);
  }

  /** The files of a session some of which may be anything. */
  ghost predicate Partly(codec: Codec, root: Path, id: string, before: Files, now: Files, affected: set<Path>) {
    var dir := SessionDir(root, id);
    affected <= before.Keys && affected <= now.Keys &&
    (forall p :: !Under(dir, p) && p !in affected ==>
      (p in before <==> p in now) && (p in before && p in now ==> now[p] == before[p])) &&
    (forall p :: p in affected ==> Slot(root, dir, p) in now && now[Slot(root, dir, p)] == before[p]) &&
    dir + [MANIFEST] in now && codec.manifestFrom(now[dir + [MANIFEST]]) == Some(Manifest(root, id, affected))
  }

  lemma PartlyRolledBack(codec: Codec, root: Path, id: string, before: Files, after: Files, now: Files,
                         records: seq<EditRecord>)
    requires SessionApplied(codec, root, id, before, after, records) && records != []
    requires forall p :: p in before ==> !Under(SessionDir(root, id), p)
    requires SameInside(SessionDir(root, id), after, now) && OnlyThese(after, now, Affected(before, records))
    ensures Partly(codec, root, id, before, now, Affected(before, records))
  {
    var dir := SessionDir(root, id);
    forall p | p in Affected(before, records)
      ensures Slot(root, dir, p) in now && now[Slot(root, dir, p)] == before[p] && p in now
    {
      assert Under(dir, Slot(root, dir, p)) && !Under(dir, p);
    }
    assert Under(dir, dir + [MANIFEST]);
  }

  lemma RollbackOfPartly(codec: Codec, root: Path, id: string, before: Files, now: Files, affected: set<Path>)
    requires Partly(codec, root, id, before, now, affected)
    requires forall p :: p in before ==> !Under(SessionDir(root, id), p)
    ensures RollbackById(codec, root, now, id) == Ok(before)
  {
    var dir := SessionDir(root, id);
    var slots := Manifest(root, id, affected).affectedFiles;
    assert Under(dir, dir + [MANIFEST]);
    var restored := WithoutTree(Restored(now, slots), dir);
    forall p ensures p in restored <==> p in before {
      if p in restored && p in affected { }
    }
    forall p | p in before ensures restored[p] == before[p] {
      if p in affected {
        assert slots[p] == Slot(root, dir, p);
      }
    }
    assert restored == before;
  }

  /** A backup that is a directory stays one. */
  lemma LostStaysLost(slots: map<Path, Path>, before: Files, after: Files)
    requires SomeBackupLost(before, slots) && before.Keys <= after.Keys && PrefixFree(after.Keys)
    ensures SomeBackupLost(after, slots)
  {
    var p :| p in slots && slots[p] !in before && IsDirectory(before, slots[p]);
    var f :| f in before && slots[p] < f;
    assert f in after;
  }

  lemma OneMoreRestored(before: Files, now: Files, affected: map<Path, Path>, rest: set<Path>, p: Path)
    requires OriginalsAreNotBackups(affected) && p in rest && rest <= affected.Keys
    requires now == Restored(before, affected - rest)
    ensures affected[p] in now <==> affected[p] in before
    ensures Restored(before, affected - (rest - {p})) ==
            if affected[p] in now then now[p := now[affected[p]]] else now
  {
    assert affected[p] in affected.Values;
  }

  /** A lost backup stays lost, as files only appear. */
  lemma StillLost(before: Files, now: Files, affected: map<Path, Path>, rest: set<Path>, p: Path)
    requires rest <= affected.Keys && p in rest && before.Keys <= now.Keys && PrefixFree(now.Keys)
    ensures SomeBackupLost(before, Restrict(affected, rest)) &&
            (affected[p] in now || !IsDirectory(now, affected[p])) ==>
              SomeBackupLost(before, Restrict(affected, rest - {p}))
  {
    if SomeBackupLost(before, Restrict(affected, rest)) && (affected[p] in now || !IsDirectory(now, affected[p])) {
      var made := Restrict(affected, rest);
      var q :| q in made && made[q] !in before && IsDirectory(before, made[q]);
      var f :| f in before && made[q] < f;
      assert f in now;
      assert q in Restrict(affected, rest - {p});
    }
  }

  lemma OriginalIsFree(before: Files, now: Files, affected: map<Path, Path>, rest: set<Path>, p: Path)
    requires PrefixFree(before.Keys + affected.Keys) && p in rest && rest <= affected.Keys
    requires now == Restored(before, affected - rest)
    ensures Free(now, p) && Landing(now, affected[p], p) == p
  {
    assert now.Keys <= before.Keys + affected.Keys;
  }

  class BackupManager {
    const workspace: Path
    const codec: Codec
    const disk: Disk
    var sessions: map<string, RenameSession>

    constructor (workspace: Path, codec: Codec, disk: Disk)
      ensures this.workspace == workspace && this.codec == codec && this.disk == disk && sessions == map[]
    {
      this.workspace, this.codec, this.disk := workspace, codec, disk;
      sessions := map[];
    }

    method CreateSession(sessionId: string, request: RenameRequest) returns (session: RenameSession)
      modifies this
      ensures fresh(session) && session.sessionId == sessionId && session.request == request
      ensures session.backupDir == SessionDir(workspace, sessionId)
      ensures session.affectedFiles == map[] && session.status == Pending
      ensures sessions == old(sessions)[sessionId := session]
    {
      session := new RenameSession(sessionId, request, SessionDir(workspace, sessionId));
      sessions := sessions[sessionId := session];
    }

    /** One pass of the loop over the files: an existing file is copied and recorded. */
    method BackupFile(session: RenameSession, p: Path, ghost before: Files, ghost files: set<Path>,
                      ghost affected: set<Path>)
      returns (ok: bool)
      requires disk.Valid() && p in files && p in disk.files && SameOutside(session.backupDir, before, disk.files)
      requires NoneUnder(session.backupDir, files) ==>
                 Progress(Slots(workspace, session.backupDir, files), session.backupDir, before, disk.files,
                          Existing(before, files), affected, session.affectedFiles)
      modifies disk, session`affectedFiles
      ensures disk.Valid() && SameOutside(session.backupDir, before, disk.files)
      ensures FailuresIn(disk.fates) <= FailuresIn(old(disk.fates))
      ensures ok ==> FailuresIn(disk.fates) == FailuresIn(old(disk.fates))
      ensures !ok && NoneUnder(session.backupDir, files) &&
              Unobstructed(before, workspace, session.backupDir, Existing(before, files)) ==>
                FailuresIn(disk.fates) < FailuresIn(old(disk.fates))
      ensures ok && NoneUnder(session.backupDir, files) ==>
                Progress(Slots(workspace, session.backupDir, files), session.backupDir, before, disk.files,
                         Existing(before, files), affected + {p}, session.affectedFiles)
    {
      var dir := session.backupDir;
      var slot := Slot(workspace, dir, p);
      ghost var slots, all, now, made :=
        Slots(workspace, dir, files), Existing(before, files), disk.files, session.affectedFiles;
      SlotsUnderDir(workspace, dir, files);
      if NoneUnder(dir, files) && Unobstructed(before, workspace, dir, all) {
        SlotIsFree(workspace, dir, slots, before, now, all, affected, made, p);
      }
      ok := disk.Copy(p, slot);
      OutsideUnchanged(dir, before, now, disk.files, Landing(now, p, slot));
      if ok {
        session.affectedFiles := session.affectedFiles[p := slot];
        if NoneUnder(dir, files) {
          OneMoreCopied(slots, dir, before, now, disk.files, all, affected, made, p);
        }
      }
    }

    /** Copies every existing file to its slot. On a failed copy nothing outside the session
        directory has changed. */
    method BackupFiles(session: RenameSession, files: set<Path>) returns (ok: bool)
      requires disk.Valid() && session.affectedFiles == map[]
      modifies disk, session`affectedFiles
      ensures disk.Valid() && SameOutside(session.backupDir, old(disk.files), disk.files)
      ensures FailuresIn(disk.fates) <= FailuresIn(old(disk.fates))
      ensures ok ==> FailuresIn(disk.fates) == FailuresIn(old(disk.fates))
      ensures !ok && NoneUnder(session.backupDir, files) &&
              Unobstructed(old(disk.files), workspace, session.backupDir, Existing(old(disk.files), files)) ==>
                FailuresIn(disk.fates) < FailuresIn(old(disk.fates))
      ensures ok && NoneUnder(session.backupDir, files) ==>
                var slots, affected := Slots(workspace, session.backupDir, files), Existing(old(disk.files), files);
                session.affectedFiles == Restrict(slots, affected) &&
                BackupsMade(slots, session.backupDir, old(disk.files), disk.files, affected)
    {
      ghost var before, all, dir := disk.files, Existing(disk.files, files), session.backupDir;
      if p :| p in disk.files && p <= session.backupDir {
        if Unobstructed(before, workspace, dir, all) {
          DirectoryIsFree(before, workspace, dir, all, p);
        }
        return false;
      }
      ghost var slots, outside := Slots(workspace, dir, files), NoneUnder(dir, files);
      NothingCopiedYet(slots, dir, before, all);
      var rest := files;
      ghost var done: set<Path> := {};
      ghost var copied: set<Path> := {};
      while rest != {}
        invariant disk.Valid() && done !! rest && files == done + rest && copied == Existing(before, done)
        invariant SameOutside(dir, before, disk.files)
        invariant FailuresIn(disk.fates) == FailuresIn(old(disk.fates))
        invariant outside ==> Progress(slots, dir, before, disk.files, all, copied, session.affectedFiles)
        decreases rest
      {
        var p :| p in rest;
        OneMoreExisting(before, done, p);
        assert outside ==> (p in disk.files <==> p in before);
        if p in disk.files {
          ok := BackupFile(session, p, before, files, copied);
          if !ok { return; }
        }
        rest, done, copied := rest - {p}, done + {p}, Existing(before, done + {p});
      }
      assert done == files;
      if outside {
        AllCopied(slots, dir, before, disk.files, all, session.affectedFiles);
      }
      ok := true;
    }

    /** Copies every existing backup over its original; a backup that is a directory cannot be copied. */
    method CopyBack(affected: map<Path, Path>) returns (ok: bool)
      requires disk.Valid()
      modifies disk
      ensures disk.Valid() && FailuresIn(disk.fates) <= FailuresIn(old(disk.fates))
      ensures ok ==> FailuresIn(disk.fates) == FailuresIn(old(disk.fates))
      ensures SomeBackupLost(old(disk.files), affected) ==> !ok
      ensures !ok && CanRestore(old(disk.files), affected) ==> FailuresIn(disk.fates) < FailuresIn(old(disk.fates))
      ensures ok && CanRestore(old(disk.files), affected) ==> disk.files == Restored(old(disk.files), affected)
      ensures WrittenOver(old(disk.files), disk.files, affected.Keys)
    {
      ghost var before, can, lost := disk.files, CanRestore(disk.files, affected), SomeBackupLost(disk.files, affected);
      var rest := affected.Keys;
      assert Restrict(affected, rest) == affected;
      while rest != {}
        invariant disk.Valid() && rest <= affected.Keys && before.Keys <= disk.files.Keys
        invariant FailuresIn(disk.fates) == FailuresIn(old(disk.fates))
        invariant can ==> disk.files == Restored(before, affected - rest)
        invariant lost ==> SomeBackupLost(before, Restrict(affected, rest))
        invariant WrittenOver(before, disk.files, affected.Keys)
        decreases rest
      {
        var p :| p in rest;
        ghost var now := disk.files;
        StillLost(before, now, affected, rest, p);
        if can {
          OneMoreRestored(before, now, affected, rest, p);
          OriginalIsFree(before, now, affected, rest, p);
        }
        if affected[p] in disk.files {
          ok := disk.Copy(affected[p], p);
          OneMoreOriginal(before, now, disk.files, affected.Keys, affected[p], p);
          if !ok { return; }
        } else if IsDirectory(disk.files, affected[p]) {
          return false;
        }
        rest := rest - {p};
      }
      assert affected - rest == affected;
      ok := true;
    }

    method Restore(session: RenameSession) returns (ok: bool)
      requires disk.Valid()
      modifies disk, session`status
      ensures disk.Valid() && FailuresIn(disk.fates) <= FailuresIn(old(disk.fates))
      ensures SomeBackupLost(old(disk.files), session.affectedFiles) ==> !ok
      ensures !ok && CanRestore(old(disk.files), session.affectedFiles) ==>
                FailuresIn(disk.fates) < FailuresIn(old(disk.fates))
      ensures ok && CanRestore(old(disk.files), session.affectedFiles) ==>
                disk.files == Restored(old(disk.files), session.affectedFiles)
      ensures session.status == if ok then RolledBack else old(session.status)
      ensures LeavesForRetry(session.backupDir, session.affectedFiles, old(disk.files), disk.files)
    {
      ghost var before := disk.files;
      ok := CopyBack(session.affectedFiles);
      OriginalsLeaveForRetry(session.backupDir, before, disk.files, session.affectedFiles);
      if ok {
        session.status := RolledBack;
      }
    }

    /** Restores the listed files and then removes the session directory; a failed copy leaves it. */
    method RestoreAndClean(dir: Path, affected: map<Path, Path>) returns (ok: bool)
      requires disk.Valid()
      modifies disk
      ensures disk.Valid()
      ensures SomeBackupLost(old(disk.files), affected) ==> !ok
      ensures !ok ==> LeavesForRetry(dir, affected, old(disk.files), disk.files)
      ensures !ok && CanRestore(old(disk.files), affected) ==> FailuresIn(old(disk.fates)) > 0
      ensures ok && CanRestore(old(disk.files), affected) ==>
                disk.files == WithoutTree(Restored(old(disk.files), affected), dir)
    {
      ghost var before := disk.files;
      ok := CopyBack(affected);
      if !ok {
        OriginalsLeaveForRetry(dir, before, disk.files, affected);
        return;
      }
      disk.RemoveTree(dir);
    }

    /** A session this manager knows is restored from memory and its directory kept; any other is
        restored from its manifest on disk and its directory removed. */
    method RestoreById(id: string) returns (error: Option<RollbackError>)
      requires disk.Valid()
      modifies disk, sessions.Values
      ensures disk.Valid()
      ensures id in sessions ==>
                var affected := old(sessions[id].affectedFiles);
                (error == None || error == Some(CopyFailed)) &&
                sessions[id].status == (if error == None then RolledBack else old(sessions[id].status)) &&
                LeavesForRetry(sessions[id].backupDir, affected, old(disk.files), disk.files) &&
                (SomeBackupLost(old(disk.files), affected) ==> error == Some(CopyFailed)) &&
                (CanRestore(old(disk.files), affected) ==>
                  (error == None ==> disk.files == Restored(old(disk.files), affected)) &&
                  (FailuresIn(old(disk.fates)) == 0 ==> error == None))
      ensures id !in sessions ==>
                var dir := SessionDir(workspace, id);
                var before, after, manifestPath := old(disk.files), disk.files, dir + [MANIFEST];
                if forall p :: p in before ==> !Under(dir, p) then error == Some(SessionNotFound) && after == before
                else if manifestPath !in before then error == Some(ManifestNotFound) && after == before
                else match codec.manifestFrom(before[manifestPath])
                case None => error == Some(InvalidManifest) && after == before
                case Some(manifest) =>
                  (error == None || error == Some(CopyFailed)) &&
                  (SomeBackupLost(before, manifest.affectedFiles) ==> error == Some(CopyFailed)) &&
                  (error == Some(CopyFailed) ==> LeavesForRetry(dir, manifest.affectedFiles, before, after)) &&
                  (CanRestore(before, manifest.affectedFiles) ==>
                    (error == None ==> RollbackById(codec, workspace, before, id) == Ok(after)) &&
                    (FailuresIn(old(disk.fates)) == 0 ==> error == None))
    {
      if id in sessions {
        assert sessions[id] in sessions.Values;
        var ok := Restore(sessions[id]);
        return if ok then None else Some(CopyFailed);
      }
      var dir := SessionDir(workspace, id);
      if forall p | p in disk.files :: !Under(dir, p) {
        return Some(SessionNotFound);
      }
      if dir + [MANIFEST] !in disk.files {
        return Some(ManifestNotFound);
      }
      var manifest := codec.manifestFrom(disk.files[dir + [MANIFEST]]);
      if manifest.None? {
        return Some(InvalidManifest);
      }
      var ok := RestoreAndClean(dir, manifest.value.affectedFiles);
      error := if ok then None else Some(CopyFailed);
    }

    method WriteRequestJson(session: RenameSession) returns (ok: bool)
      requires disk.Valid()
      modifies disk
      ensures disk.Valid()
      ensures WriteEffect(old(disk.files), old(disk.fates), disk.files, disk.fates,
                          session.backupDir + [REQUEST], codec.requestText(session.request), ok)
    {
      ok := disk.Write(session.backupDir + [REQUEST], codec.requestText(session.request));
    }

    method WriteManifest(session: RenameSession) returns (ok: bool)
      requires disk.Valid()
      modifies disk
      ensures disk.Valid()
      ensures WriteEffect(old(disk.files), old(disk.fates), disk.files, disk.fates, session.backupDir + [MANIFEST],
                codec.manifestText(RenameManifest(session.sessionId, session.affectedFiles, session.status)), ok)
    {
      var manifest := RenameManifest(session.sessionId, session.affectedFiles, session.status);
      ok := disk.Write(session.backupDir + [MANIFEST], codec.manifestText(manifest));
    }
  }
}

/** Document synchronisation: the handlers of the daemon as steps between suspension points. A cache
    call never suspends and a notification is written before its drain is awaited, so reading the
    cached state and writing didOpen, or incrementing the version and writing didChange, is one step.
    `resolve` takes the path of a request to the key of the diagnostic cache. */
module DocumentSync {
  import opened Wrappers
  import opened FileLocks
  import opened OpenStates

  datatype Notification = DidOpen(path: string) | DidChange(path: string, version: nat)

  /** Where a handler is suspended. */
  datatype Task =
    | Queued(path: string, lock: nat)      // a synchronised request waiting for its file lock
    | Opening(path: string, lock: nat)     // it holds the lock and drains its didOpen
    | Requesting(path: string, lock: nat)  // it holds the lock and awaits the server's answer
    | ChangeOpening(path: string)          // a change handler, without any lock, drains its didOpen
    | Done

  datatype Event =
    | StartSync(path: string)
    | Acquire(task: nat)
    | Opened(task: nat)                          // the drain of didOpen returns
    | Answered(task: nat, recorded: Option<real>)  // the answer arrives; a diagnostic request records the mtime
    | Fail(task: nat)                            // an exception or a cancellation leaves the handler
    | StartChange(path: string, mtime: real)
    | FailAfterMark(task: nat)                   // a change handler marks the file open, then cannot read it

  datatype State = State(files: map<string, OpenState>, locks: Locks, tasks: seq<Task>, log: seq<Notification>)

  const INITIAL := State(map[], NO_LOCKS, [], [])

  function FileOf(files: map<string, OpenState>, key: string): OpenState {
    if key in files then files[key] else NEVER_OPENED
  }

  predicate HoldsLock(t: Task, lock: nat) {
    (t.Opening? || t.Requesting?) && t.lock == lock
  }

  predicate Free(tasks: seq<Task>, lock: nat) {
    forall t :: 0 <= t < |tasks| ==> !HoldsLock(tasks[t], lock)
  }

  function LockOf(table: seq<Entry>, path: string): nat {
    if Index(table, path) < |table| then table[Index(table, path)].lock else 0
  }

  predicate NeedsOpen(f: OpenState, mtime: real) {
    !f.isOpen || (f.mtime > 0.0 && mtime > f.mtime)
  }

  function AfterMark(s: State, key: string, t: nat, next: Task): State
    requires t < |s.tasks|
  {
    s.(files := s.files[key := MarkedOpen(FileOf(s.files, key))], tasks := s.tasks[t := next])
  }

  function AfterChange(s: State, path: string, key: string): State {
    var f := FileOf(s.files, key);
    s.(files := s.files[key := f.(version := f.version + 1)], log := s.log + [DidChange(path, f.version + 1)])
  }

  function AcquireStep(s: State, resolve: string -> string, t: nat, path: string, lock: nat): State
    requires t < |s.tasks|
  {
    if !Free(s.tasks, lock) then s
    else if FileOf(s.files, resolve(path)).isOpen then s.(tasks := s.tasks[t := Requesting(path, lock)])
    else s.(tasks := s.tasks[t := Opening(path, lock)], log := s.log + [DidOpen(path)])
  }

  function ChangeStep(s: State, resolve: string -> string, path: string, mtime: real): State {
    if NeedsOpen(FileOf(s.files, resolve(path)), mtime)
    then s.(tasks := s.tasks + [ChangeOpening(path)], log := s.log + [DidOpen(path)])
    else AfterChange(s.(tasks := s.tasks + [Done]), path, resolve(path))
  }

  function TaskStep(s: State, resolve: string -> string, t: nat, e: Event): State
    requires t < |s.tasks|
  {
    match (e, s.tasks[t])
    case (Acquire(_), Queued(path, lock)) => AcquireStep(s, resolve, t, path, lock)
    case (Opened(_), Opening(path, lock)) => AfterMark(s, resolve(path), t, Requesting(path, lock))
    case (Opened(_), ChangeOpening(path)) => AfterChange(AfterMark(s, resolve(path), t, Done), path, resolve(path))
    case (FailAfterMark(_), ChangeOpening(path)) => AfterMark(s, resolve(path), t, Done)
    case (Answered(_, None), Requesting(_, _)) => s.(tasks := s.tasks[t := Done])
    case (Answered(_, Some(mtime)), Requesting(path, _)) =>
      s.(tasks := s.tasks[t := Done],
         files := s.files[resolve(path) := FileOf(s.files, resolve(path)).(mtime := mtime)])
    case (Fail(_), _) => s.(tasks := s.tasks[t := Done])
    case _ => s
  }

  /** An event that its task is not ready for changes nothing. */
  function Step(s: State, resolve: string -> string, e: Event): State {
    match e
    case StartSync(path) =>
      var locks := LookupLocks(s.locks, path);
      s.(locks := locks, tasks := s.tasks + [Queued(path, LockOf(locks.table, path))])
    case StartChange(path, mtime) => ChangeStep(s, resolve, path, mtime)
    case _ => if e.task < |s.tasks| then TaskStep(s, resolve, e.task, e) else s
  }

  function Run(resolve: string -> string, events: seq<Event>): State {
    if events == [] then INITIAL
    else Step(Run(resolve, events[..|events| - 1]), resolve, events[|events| - 1])
  }

  // ----- the handlers, suspension point by suspension point

  class Daemon {
    const resolve: string -> string
    const fileLocks: LockTable
    var files: map<string, OpenState>
    var tasks: seq<Task>
    var log: seq<Notification>  // what was written to the server

    ghost function View(): State
      reads this, fileLocks
    {
      State(files, Locks(fileLocks.table, fileLocks.created), tasks, log)
    }

    ghost predicate Valid()
      reads this, fileLocks
    {
      fileLocks.Valid()
    }

    constructor (resolve: string -> string)
      ensures Valid() && View() == INITIAL && this.resolve == resolve
      ensures fresh(fileLocks)
    {
      this.resolve := resolve;
      fileLocks := new LockTable();
      files, tasks, log := map[], [], [];
    }

    method OnDidOpen(key: string)
      modifies this`files
      ensures files == old(files)[key := MarkedOpen(FileOf(old(files), key))]
    {
      var state := FileOf(files, key);
      state := state.(isOpen := true);
      state := state.(version := state.version + 1);
      files := files[key := state];
    }

    method IncrementVersion(key: string)
      modifies this`files
      ensures var f := FileOf(old(files), key); files == old(files)[key := f.(version := f.version + 1)]
    {
      var state := FileOf(files, key);
      state := state.(version := state.version + 1);
      files := files[key := state];
    }

    /** send_did_change, up to the drain. */
    method SendDidChange(path: string)
      modifies this`files, this`log
      ensures View() == AfterChange(old(View()), path, resolve(path))
    {
      IncrementVersion(resolve(path));
      var version := FileOf(files, resolve(path)).version;
      log := log + [DidChange(path, version)];
    }

    /** A synchronised request looks its lock up and starts to wait for it. */
    method HandleDocSync(path: string) returns (task: nat)
      requires Valid()
      modifies this`tasks, fileLocks
      ensures Valid() && View() == Step(old(View()), resolve, StartSync(path)) && task == |old(tasks)|
    {
      var lock := fileLocks.GetFileLock(path);
      assert Index(fileLocks.table, path) == |fileLocks.table| - 1;
      task := |tasks|;
      tasks := tasks + [Queued(path, lock)];
    }

    /** The lock is granted and the synchronisation context entered, up to the drain of didOpen. */
    method EnterContext(t: nat)
      modifies this`tasks, this`log
      ensures View() == Step(old(View()), resolve, Acquire(t))
    {
      if t < |tasks| && tasks[t].Queued? && Free(tasks, tasks[t].lock) {
        var path, lock := tasks[t].path, tasks[t].lock;
        if FileOf(files, resolve(path)).isOpen {
          tasks := tasks[t := Requesting(path, lock)];
        } else {
          log := log + [DidOpen(path)];
          tasks := tasks[t := Opening(path, lock)];
        }
      }
    }

    /** The drain of a didOpen returns: both handlers mark the file open, the change handler then
        sends its change. */
    method OpenDrained(t: nat)
      modifies this`files, this`tasks, this`log
      ensures View() == Step(old(View()), resolve, Opened(t))
    {
      if t < |tasks| && tasks[t].Opening? {
        OnDidOpen(resolve(tasks[t].path));
        tasks := tasks[t := Requesting(tasks[t].path, tasks[t].lock)];
      } else if t < |tasks| && tasks[t].ChangeOpening? {
        var path := tasks[t].path;
        OnDidOpen(resolve(path));
        tasks := tasks[t := Done];
        SendDidChange(path);
      }
    }

    /** A change handler, up to its first suspension. */
    method HandleDidChange(path: string, mtime: real)
      modifies this`files, this`tasks, this`log
      ensures View() == Step(old(View()), resolve, StartChange(path, mtime))
    {
      var state := FileOf(files, resolve(path));
      var needsOpen := !state.isOpen;
      if !needsOpen && state.mtime > 0.0 {
        needsOpen := mtime > state.mtime;
      }
      if needsOpen {
        log := log + [DidOpen(path)];
        tasks := tasks + [ChangeOpening(path)];
      } else {
        tasks := tasks + [Done];
        SendDidChange(path);
      }
    }

    /** The server answers; a diagnostic request records the modification time. */
    method Answer(t: nat, recorded: Option<real>)
      modifies this`files, this`tasks
      ensures View() == Step(old(View()), resolve, Answered(t, recorded))
    {
      if t < |tasks| && tasks[t].Requesting? {
        if recorded.Some? {
          var key := resolve(tasks[t].path);
          files := files[key := FileOf(files, key).(mtime := recorded.value)];
        }
        tasks := tasks[t := Done];
      }
    }
  }

  // ----- versions

  predicate ChangeSameFile(resolve: string -> string, m: Notification, n: Notification) {
    m.DidChange? && n.DidChange? && resolve(m.path) == resolve(n.path)
  }

  /** For each file the versions written strictly increase, and all exceed the version 1 of didOpen. */
  predicate VersionsIncrease(resolve: string -> string, log: seq<Notification>) {
    (forall i :: 0 <= i < |log| && log[i].DidChange? ==> log[i].version > 1) &&
    (forall i, j :: 0 <= i < j < |log| && ChangeSameFile(resolve, log[i], log[j]) ==>
      log[i].version < log[j].version)
  }

  ghost predicate VersionInv(resolve: string -> string, files: map<string, OpenState>, log: seq<Notification>) {
    VersionsIncrease(resolve, log) &&
    (forall i :: 0 <= i < |log| && log[i].DidChange? ==>
      log[i].version <= FileOf(files, resolve(log[i].path)).version) &&
    (forall key :: key in files && files[key].isOpen ==> files[key].version >= 1)
  }

  lemma UpdateKeepsVersionInv(resolve: string -> string, files: map<string, OpenState>, log: seq<Notification>,
                              key: string, f: OpenState)
    requires VersionInv(resolve, files, log)
    requires f.version >= FileOf(files, key).version && (f.isOpen ==> f.version >= 1)
    ensures VersionInv(resolve, files[key := f], log)
  {
  }

  lemma DidOpenKeepsVersionInv(resolve: string -> string, files: map<string, OpenState>, log: seq<Notification>,
                               path: string)
    requires VersionInv(resolve, files, log)
    ensures VersionInv(resolve, files, log + [DidOpen(path)])
  {
  }

  lemma DidChangeKeepsVersionInv(resolve: string -> string, files: map<string, OpenState>, log: seq<Notification>,
                                 path: string)
    requires VersionInv(resolve, files, log) && FileOf(files, resolve(path)).isOpen
    ensures var f := FileOf(files, resolve(path));
            VersionInv(resolve, files[resolve(path) := f.(version := f.version + 1)],
                       log + [DidChange(path, f.version + 1)])
  {
    var f := FileOf(files, resolve(path));
    UpdateKeepsVersionInv(resolve, files, log, resolve(path), f.(version := f.version + 1));
  }

  lemma TaskStepKeepsVersionInv(resolve: string -> string, s: State, t: nat, e: Event)
    requires VersionInv(resolve, s.files, s.log) && t < |s.tasks|
    ensures var after := TaskStep(s, resolve, t, e); VersionInv(resolve, after.files, after.log)
  {
    var task := s.tasks[t];
    if task.Queued? {
      DidOpenKeepsVersionInv(resolve, s.files, s.log, task.path);
    } else if !task.Done? {
      var key := resolve(task.path);
      var f := FileOf(s.files, key);
      match e
      case Opened(_) =>
        UpdateKeepsVersionInv(resolve, s.files, s.log, key, MarkedOpen(f));
        DidChangeKeepsVersionInv(resolve, s.files[key := MarkedOpen(f)], s.log, task.path);
      case FailAfterMark(_) =>
        UpdateKeepsVersionInv(resolve, s.files, s.log, key, MarkedOpen(f));
      case Answered(_, Some(mtime)) =>
        UpdateKeepsVersionInv(resolve, s.files, s.log, key, f.(mtime := mtime));
      case _ =>
    }
  }

  lemma StepKeepsVersionInv(resolve: string -> string, s: State, e: Event)
    requires VersionInv(resolve, s.files, s.log)
    ensures var after := Step(s, resolve, e); VersionInv(resolve, after.files, after.log)
  {
    match e
    case StartSync(_) =>
    case StartChange(path, mtime) =>
      if NeedsOpen(FileOf(s.files, resolve(path)), mtime) {
        DidOpenKeepsVersionInv(resolve, s.files, s.log, path);
      } else {
        DidChangeKeepsVersionInv(resolve, s.files, s.log, path);
      }
    case _ =>
      if e.task < |s.tasks| {
        TaskStepKeepsVersionInv(resolve, s, e.task, e);
      }
  }

  /** In every interleaving the didChange versions of each file strictly increase and exceed 1. */
  lemma {:induction false} VersionsAlwaysIncrease(resolve: string -> string, events: seq<Event>)
    ensures var s := Run(resolve, events); VersionsIncrease(resolve, s.log) && VersionInv(resolve, s.files, s.log)
  {
    if events != [] {
      VersionsAlwaysIncrease(resolve, events[..|events| - 1]);
      StepKeepsVersionInv(resolve, Run(resolve, events[..|events| - 1]), events[|events| - 1]);
    }
  }

  // ----- didOpen before didChange

  predicate OpenedBy(resolve: string -> string, log: seq<Notification>, key: string) {
    exists i :: 0 <= i < |log| && log[i].DidOpen? && resolve(log[i].path) == key
  }

  /** Every change of a file follows an opening of that file, by this or another path. */
  predicate FilesOpenedFirst(resolve: string -> string, log: seq<Notification>) {
    forall i :: 0 <= i < |log| && log[i].DidChange? ==> OpenedBy(resolve, log[..i], resolve(log[i].path))
  }

  /** Every change of a path follows an opening of that path. */
  predicate ChangesFollowOpens(log: seq<Notification>) {
    forall i :: 0 <= i < |log| && log[i].DidChange? ==> DidOpen(log[i].path) in log[..i]
  }

  ghost predicate FileInv(resolve: string -> string, s: State) {
    FilesOpenedFirst(resolve, s.log) &&
    (forall key :: key in s.files && s.files[key].isOpen ==> OpenedBy(resolve, s.log, key)) &&
    (forall t :: 0 <= t < |s.tasks| && (s.tasks[t].Opening? || s.tasks[t].ChangeOpening?) ==>
      OpenedBy(resolve, s.log, resolve(s.tasks[t].path)))
  }

  lemma OpenedByMore(resolve: string -> string, log: seq<Notification>, n: Notification, key: string)
    ensures OpenedBy(resolve, log, key) ==> OpenedBy(resolve, log + [n], key)
    ensures n.DidOpen? && resolve(n.path) == key ==> OpenedBy(resolve, log + [n], key)
  {
    if OpenedBy(resolve, log, key) {
      var i :| 0 <= i < |log| && log[i].DidOpen? && resolve(log[i].path) == key;
      assert (log + [n])[i] == log[i];
    }
    assert (log + [n])[|log|] == n;
  }

  lemma LogGrows(resolve: string -> string, log: seq<Notification>, n: Notification)
    requires FilesOpenedFirst(resolve, log)
    requires n.DidChange? ==> OpenedBy(resolve, log, resolve(n.path))
    ensures FilesOpenedFirst(resolve, log + [n])
  {
    var longer := log + [n];
    forall i | 0 <= i < |longer| && longer[i].DidChange? ensures OpenedBy(resolve, longer[..i], resolve(longer[i].path)) {
      assert longer[..i] == log[..i];
      assert log[..|log|] == log;
    }
  }

  lemma OneMoreNotification(resolve: string -> string, s: State, n: Notification)
    requires FileInv(resolve, s) && (n.DidChange? ==> OpenedBy(resolve, s.log, resolve(n.path)))
    ensures FileInv(resolve, s.(log := s.log + [n]))
    ensures n.DidOpen? ==> OpenedBy(resolve, s.log + [n], resolve(n.path))
  {
    LogGrows(resolve, s.log, n);
    forall key ensures OpenedBy(resolve, s.log, key) ==> OpenedBy(resolve, s.log + [n], key) {
      OpenedByMore(resolve, s.log, n, key);
    }
    if n.DidOpen? {
      OpenedByMore(resolve, s.log, n, resolve(n.path));
    }
  }

  lemma ChangeKeepsFileInv(resolve: string -> string, s: State, path: string)
    requires FileInv(resolve, s) && FileOf(s.files, resolve(path)).isOpen
    ensures FileInv(resolve, AfterChange(s, path, resolve(path)))
  {
    var f := FileOf(s.files, resolve(path));
    OneMoreNotification(resolve, s, DidChange(path, f.version + 1));
  }

  lemma TaskStepKeepsFileInv(resolve: string -> string, s: State, t: nat, e: Event)
    requires FileInv(resolve, s) && t < |s.tasks|
    ensures FileInv(resolve, TaskStep(s, resolve, t, e))
  {
    match s.tasks[t]
    case Queued(path, _) =>
      if e.Acquire? {
        OneMoreNotification(resolve, s, DidOpen(path));
      }
    case ChangeOpening(path) =>
      if e.Opened? {
        ChangeKeepsFileInv(resolve, AfterMark(s, resolve(path), t, Done), path);
      }
    case _ =>
  }

  lemma StepKeepsFileInv(resolve: string -> string, s: State, e: Event)
    requires FileInv(resolve, s)
    ensures FileInv(resolve, Step(s, resolve, e))
  {
    match e
    case StartSync(_) =>
    case StartChange(path, mtime) =>
      if NeedsOpen(FileOf(s.files, resolve(path)), mtime) {
        OneMoreNotification(resolve, s, DidOpen(path));
      } else {
        ChangeKeepsFileInv(resolve, s.(tasks := s.tasks + [Done]), path);
      }
    case _ =>
      if e.task < |s.tasks| {
        TaskStepKeepsFileInv(resolve, s, e.task, e);
      }
  }

  /** In every interleaving, whatever the paths, no didChange of a file is written before a didOpen of it. */
  lemma {:induction false} FilesAlwaysOpenedFirst(resolve: string -> string, events: seq<Event>)
    ensures FilesOpenedFirst(resolve, Run(resolve, events).log) && FileInv(resolve, Run(resolve, events))
  {
    if events != [] {
      FilesAlwaysOpenedFirst(resolve, events[..|events| - 1]);
      StepKeepsFileInv(resolve, Run(resolve, events[..|events| - 1]), events[|events| - 1]);
    }
  }

  // ----- path by path

  predicate Starts(e: Event) {
    e.StartSync? || e.StartChange?
  }

  /** The paths of the requests and changes of a run. */
  ghost function PathsUsed(events: seq<Event>): iset<string> {
    iset e | e in events && Starts(e) :: e.path
  }

  ghost predicate InjectiveOn(resolve: string -> string, paths: iset<string>) {
    forall p, q :: p in paths && q in paths && resolve(p) == resolve(q) ==> p == q
  }

  ghost predicate PathsAmong(s: State, paths: iset<string>) {
    (forall t :: 0 <= t < |s.tasks| && !s.tasks[t].Done? ==> s.tasks[t].path in paths) &&
    (forall i :: 0 <= i < |s.log| ==> s.log[i].path in paths)
  }

  lemma StepKeepsPathsAmong(resolve: string -> string, s: State, e: Event, paths: iset<string>)
    requires PathsAmong(s, paths) && (Starts(e) ==> e.path in paths)
    ensures PathsAmong(Step(s, resolve, e), paths)
  {
  }

  lemma {:induction false} RunPathsAmong(resolve: string -> string, events: seq<Event>, paths: iset<string>)
    requires PathsUsed(events) <= paths
    ensures PathsAmong(Run(resolve, events), paths)
  {
    if events != [] {
      var init, e := events[..|events| - 1], events[|events| - 1];
      assert events == init + [e];
      assert Starts(e) ==> e.path in PathsUsed(events);
      forall p | p in PathsUsed(init) ensures p in paths {
        assert p in PathsUsed(events);
      }
      RunPathsAmong(resolve, init, paths);
      StepKeepsPathsAmong(resolve, Run(resolve, init), e, paths);
    }
  }

  lemma PathsOpenedFirst(resolve: string -> string, log: seq<Notification>, paths: iset<string>)
    requires FilesOpenedFirst(resolve, log) && InjectiveOn(resolve, paths)
    requires forall i :: 0 <= i < |log| ==> log[i].path in paths
    ensures ChangesFollowOpens(log)
  {
    forall i | 0 <= i < |log| && log[i].DidChange? ensures DidOpen(log[i].path) in log[..i] {
      var j :| 0 <= j < |log[..i]| && log[..i][j].DidOpen? && resolve(log[..i][j].path) == resolve(log[i].path);
      assert log[..i][j] == log[j] == DidOpen(log[i].path);
    }
  }

  /** In an interleaving whose paths are no aliases of each other, every didChange follows a didOpen of its
      own path. */
  lemma ChangesAlwaysFollowOpens(resolve: string -> string, events: seq<Event>)
    requires InjectiveOn(resolve, PathsUsed(events))
    ensures ChangesFollowOpens(Run(resolve, events).log)
  {
    FilesAlwaysOpenedFirst(resolve, events);
    RunPathsAmong(resolve, events, PathsUsed(events));
    PathsOpenedFirst(resolve, Run(resolve, events).log, PathsUsed(events));
  }

  lemma RunAppend(resolve: string -> string, events: seq<Event>, e: Event)
    ensures Run(resolve, events + [e]) == Step(Run(resolve, events), resolve, e)
  {
    assert (events + [e])[..|events|] == events;
  }

  /** Two paths of one file: the cache knows the file as open, but the server never saw this path. */
  lemma AliasIsNeverOpened(resolve: string -> string, p: string, q: string)
    requires resolve(p) == resolve(q) && p != q
    ensures Run(resolve, [StartSync(p)] + [Acquire(0)] + [Opened(0)] + [StartChange(q, 0.0)]).log ==
            [DidOpen(p), DidChange(q, 2)]
  {
    var events := [StartSync(p)];
    RunAppend(resolve, [], StartSync(p));
    assert [] + events == events;
    RunAppend(resolve, events, Acquire(0));
    RunAppend(resolve, events + [Acquire(0)], Opened(0));
    RunAppend(resolve, events + [Acquire(0)] + [Opened(0)], StartChange(q, 0.0));
  }

  /** Every run over these paths opens each path before changing it. */
  ghost predicate AlwaysOpenFirst(resolve: string -> string, paths: iset<string>) {
    forall events :: PathsUsed(events) <= paths ==> ChangesFollowOpens(Run(resolve, events).log)
  }

  lemma InjectiveOnFewer(resolve: string -> string, some: iset<string>, paths: iset<string>)
    requires some <= paths && InjectiveOn(resolve, paths)
    ensures InjectiveOn(resolve, some)
  {
  }

  lemma AliasBreaksOpenFirst(resolve: string -> string, paths: iset<string>, p: string, q: string)
    requires p in paths && q in paths && resolve(p) == resolve(q) && p != q
    ensures !AlwaysOpenFirst(resolve, paths)
  {
    var events := [StartSync(p)] + [Acquire(0)] + [Opened(0)] + [StartChange(q, 0.0)];
    assert events == [StartSync(p), Acquire(0), Opened(0), StartChange(q, 0.0)];
    forall e | e in events && Starts(e) ensures e.path in paths {
    }
    AliasIsNeverOpened(resolve, p, q);
    var log := Run(resolve, events).log;
    assert log[1].DidChange? && log[..1] == [DidOpen(p)];
    assert PathsUsed(events) <= paths && !ChangesFollowOpens(log);
  }

  /** The runs over a set of paths all open each path before changing it exactly when no two of the paths
      are aliases. */
  lemma OpenFirstExactly(resolve: string -> string, paths: iset<string>)
    ensures AlwaysOpenFirst(resolve, paths) <==> InjectiveOn(resolve, paths)
  {
    if InjectiveOn(resolve, paths) {
      forall events | PathsUsed(events) <= paths ensures ChangesFollowOpens(Run(resolve, events).log) {
        InjectiveOnFewer(resolve, PathsUsed(events), paths);
        ChangesAlwaysFollowOpens(resolve, events);
      }
    } else {
      var p, q :| p in paths && q in paths && resolve(p) == resolve(q) && p != q;
      AliasBreaksOpenFirst(resolve, paths, p, q);
    }
  }

  // ----- how often a path is opened

  function OpenCount(log: seq<Notification>, p: string): nat {
    if log == [] then 0
    else OpenCount(log[..|log| - 1], p) + (if log[|log| - 1] == DidOpen(p) then 1 else 0)
  }

  /** Whether a task has written a didOpen of the path and awaits its drain. */
  predicate InOpening(t: Task, p: string) {
    (t.Opening? || t.ChangeOpening?) && t.path == p
  }

  function OpeningCount(tasks: seq<Task>, p: string): nat {
    if tasks == [] then 0
    else OpeningCount(tasks[..|tasks| - 1], p) + (if InOpening(tasks[|tasks| - 1], p) then 1 else 0)
  }

  /** Whether an event marks the file open for a task that opened it by this path. */
  predicate MarksOpen(s: State, e: Event, p: string) {
    (e.Opened? && e.task < |s.tasks| && InOpening(s.tasks[e.task], p)) ||
    (e.FailAfterMark? && e.task < |s.tasks| && s.tasks[e.task] == ChangeOpening(p))
  }

  /** Whether an event fails a task while its didOpen of the path is drained. */
  predicate FailsOpening(s: State, e: Event, p: string) {
    e.Fail? && e.task < |s.tasks| && InOpening(s.tasks[e.task], p)
  }

  function Marks(resolve: string -> string, events: seq<Event>, p: string): nat {
    if events == [] then 0
    else Marks(resolve, events[..|events| - 1], p) +
         (if MarksOpen(Run(resolve, events[..|events| - 1]), events[|events| - 1], p) then 1 else 0)
  }

  function FailedOpenings(resolve: string -> string, events: seq<Event>, p: string): nat {
    if events == [] then 0
    else FailedOpenings(resolve, events[..|events| - 1], p) +
         (if FailsOpening(Run(resolve, events[..|events| - 1]), events[|events| - 1], p) then 1 else 0)
  }

  function Bit(b: bool): nat {
    if b then 1 else 0
  }

  lemma OpenCountAppend(log: seq<Notification>, n: Notification, p: string)
    ensures OpenCount(log + [n], p) == OpenCount(log, p) + Bit(n == DidOpen(p))
  {
    assert (log + [n])[..|log|] == log;
  }

  lemma OpeningCountAppend(tasks: seq<Task>, t: Task, p: string)
    ensures OpeningCount(tasks + [t], p) == OpeningCount(tasks, p) + Bit(InOpening(t, p))
  {
    assert (tasks + [t])[..|tasks|] == tasks;
  }

  lemma {:induction false} OpeningCountUpdate(tasks: seq<Task>, t: nat, next: Task, p: string)
    requires t < |tasks|
    ensures OpeningCount(tasks[t := next], p) + Bit(InOpening(tasks[t], p)) ==
            OpeningCount(tasks, p) + Bit(InOpening(next, p))
  {
    var init, last := tasks[..|tasks| - 1], |tasks| - 1;
    if t == last {
      assert tasks[t := next][..last] == init;
    } else {
      OpeningCountUpdate(init, t, next, p);
      assert tasks[t := next][..last] == init[t := next];
    }
  }

  lemma TaskStepChanges(resolve: string -> string, s: State, t: nat, e: Event)
    requires t < |s.tasks|
    ensures var after := TaskStep(s, resolve, t, e);
            |after.tasks| == |s.tasks| && after.tasks == s.tasks[t := after.tasks[t]] &&
            (after.log == s.log || (|after.log| > |s.log| && after.log == s.log + [after.log[|s.log|]]))
  {
  }

  predicate Writes(before: State, after: State, n: Notification) {
    |after.log| > |before.log| && after.log[|before.log|] == n
  }

  /** A task enters an opening by writing a didOpen and leaves it by marking the file or failing. */
  lemma TaskOpens(resolve: string -> string, s: State, t: nat, e: Event, p: string)
    requires t < |s.tasks| && !Starts(e) && e.task == t
    ensures var after := TaskStep(s, resolve, t, e);
            |after.tasks| == |s.tasks| &&
            Bit(InOpening(s.tasks[t], p)) + Bit(Writes(s, after, DidOpen(p))) ==
            Bit(InOpening(after.tasks[t], p)) + Bit(MarksOpen(s, e, p)) + Bit(FailsOpening(s, e, p))
  {
  }

  lemma TaskStepAccounts(resolve: string -> string, s: State, t: nat, e: Event, p: string)
    requires t < |s.tasks| && !Starts(e) && e.task == t
    ensures var after := TaskStep(s, resolve, t, e);
            OpenCount(after.log, p) + OpeningCount(s.tasks, p) ==
            OpenCount(s.log, p) + OpeningCount(after.tasks, p) + Bit(MarksOpen(s, e, p)) + Bit(FailsOpening(s, e, p))
  {
    var after := TaskStep(s, resolve, t, e);
    TaskStepChanges(resolve, s, t, e);
    TaskOpens(resolve, s, t, e, p);
    OpeningCountUpdate(s.tasks, t, after.tasks[t], p);
    LogCounts(s, after, p);
  }

  lemma LogCounts(s: State, after: State, p: string)
    requires after.log == s.log || (|after.log| > |s.log| && after.log == s.log + [after.log[|s.log|]])
    ensures OpenCount(after.log, p) == OpenCount(s.log, p) + Bit(Writes(s, after, DidOpen(p)))
  {
    if after.log != s.log {
      OpenCountAppend(s.log, after.log[|s.log|], p);
    }
  }

  lemma StartOpens(resolve: string -> string, s: State, e: Event, p: string)
    requires Starts(e)
    ensures var after := Step(s, resolve, e);
            |after.tasks| > |s.tasks| && after.tasks == s.tasks + [after.tasks[|s.tasks|]] &&
            (after.log == s.log || (|after.log| > |s.log| && after.log == s.log + [after.log[|s.log|]])) &&
            Bit(Writes(s, after, DidOpen(p))) == Bit(InOpening(after.tasks[|s.tasks|], p))
  {
  }

  lemma StartAccounts(resolve: string -> string, s: State, e: Event, p: string)
    requires Starts(e)
    ensures var after := Step(s, resolve, e);
            OpenCount(after.log, p) + OpeningCount(s.tasks, p) == OpenCount(s.log, p) + OpeningCount(after.tasks, p)
  {
    var after := Step(s, resolve, e);
    StartOpens(resolve, s, e, p);
    OpeningCountAppend(s.tasks, after.tasks[|s.tasks|], p);
    LogCounts(s, after, p);
  }

  lemma StepAccounts(resolve: string -> string, s: State, e: Event, p: string)
    ensures var after := Step(s, resolve, e);
            OpenCount(after.log, p) + OpeningCount(s.tasks, p) ==
            OpenCount(s.log, p) + OpeningCount(after.tasks, p) + Bit(MarksOpen(s, e, p)) + Bit(FailsOpening(s, e, p))
  {
    if Starts(e) {
      StartAccounts(resolve, s, e, p);
    } else if e.task < |s.tasks| {
      TaskStepAccounts(resolve, s, e.task, e, p);
    }
  }

  /** In every interleaving each didOpen of a path is accounted for: the file was marked open after it, its
      task failed, or it is still being drained. */
  lemma {:induction false} EveryOpenIsAccounted(resolve: string -> string, events: seq<Event>, p: string)
    ensures OpenCount(Run(resolve, events).log, p) ==
            Marks(resolve, events, p) + FailedOpenings(resolve, events, p) + OpeningCount(Run(resolve, events).tasks, p)
  {
    if events != [] {
      EveryOpenIsAccounted(resolve, events[..|events| - 1], p);
      StepAccounts(resolve, Run(resolve, events[..|events| - 1]), events[|events| - 1], p);
    }
  }

  // ----- synchronised requests whose locks stay in the table

  predicate IsOpening(tasks: seq<Task>, path: string) {
    exists t :: 0 <= t < |tasks| && tasks[t].Opening? && tasks[t].path == path
  }

  predicate Live(t: Task) {
    t.Queued? || t.Opening? || t.Requesting?
  }

  predicate HasLock(table: seq<Entry>, path: string, lock: nat) {
    Index(table, path) < |table| && LockOf(table, path) == lock
  }

  /** The lock a live task has or waits for is the lock the table has for its path. */
  predicate LocksInTable(tasks: seq<Task>, table: seq<Entry>) {
    forall t :: 0 <= t < |tasks| && Live(tasks[t]) ==> HasLock(table, tasks[t].path, tasks[t].lock)
  }

  /** No two tasks hold one lock. */
  predicate HoldersExclude(tasks: seq<Task>) {
    forall t, u :: 0 <= t < u < |tasks| && (tasks[t].Opening? || tasks[t].Requesting?) ==> !HoldsLock(tasks[u], tasks[t].lock)
  }

  predicate NoChanges(tasks: seq<Task>) {
    forall t :: 0 <= t < |tasks| ==> !tasks[t].ChangeOpening?
  }

  predicate SyncInv(s: State) {
    LocksInTable(s.tasks, s.locks.table) && HoldersExclude(s.tasks) && NoChanges(s.tasks) &&
    |s.locks.table| <= FILE_LOCKS_MAX && Distinct(s.locks.table)
  }

  /** The lock of no live task is evicted. */
  predicate KeepsLocksInUse(s: State, e: Event) {
    e.StartSync? ==>
      var table := LookupLocks(s.locks, e.path).table;
      forall t :: 0 <= t < |s.tasks| && Live(s.tasks[t]) ==> Index(table, s.tasks[t].path) < |table|
  }

  lemma LookupKeepsLock(table: seq<Entry>, next: nat, q: string, path: string, lock: nat)
    requires |table| <= FILE_LOCKS_MAX && Distinct(table) && HasLock(table, path, lock)
    requires Index(Lookup(table, next, q), path) < |Lookup(table, next, q)|
    ensures HasLock(Lookup(table, next, q), path, lock)
  {
    var after := Lookup(table, next, q);
    var k := Index(after, path);
    LookupKeepsValid(table, next, q);
    LastEntry(table, next, q);
    if k < |after| - 1 {
      EntryFrom(table, next, q, k);
      FoundAt(table, path, From(table, q, k));
    }
  }

  lemma LookedUpIsLast(table: seq<Entry>, next: nat, path: string)
    requires |table| <= FILE_LOCKS_MAX && Distinct(table)
    ensures var after := Lookup(table, next, path);
            after != [] && Index(after, path) == |after| - 1 && HasLock(after, path, LockOf(after, path))
  {
    var after := Lookup(table, next, path);
    LookupKeepsValid(table, next, path);
    LastEntry(table, next, path);
    FoundAt(after, path, |after| - 1);
  }

  lemma StartKeepsLocksInTable(s: State, path: string)
    requires SyncInv(s) && KeepsLocksInUse(s, StartSync(path))
    ensures var table := LookupLocks(s.locks, path).table;
            LocksInTable(s.tasks + [Queued(path, LockOf(table, path))], table)
  {
    var table := LookupLocks(s.locks, path).table;
    LookedUpIsLast(s.locks.table, s.locks.created, path);
    forall t | 0 <= t < |s.tasks| && Live(s.tasks[t]) ensures HasLock(table, s.tasks[t].path, s.tasks[t].lock) {
      LookupKeepsLock(s.locks.table, s.locks.created, path, s.tasks[t].path, s.tasks[t].lock);
    }
  }

  lemma StartKeepsSyncInv(resolve: string -> string, s: State, path: string)
    requires SyncInv(s) && KeepsLocksInUse(s, StartSync(path))
    ensures SyncInv(Step(s, resolve, StartSync(path)))
  {
    LookupKeepsValid(s.locks.table, s.locks.created, path);
    StartKeepsLocksInTable(s, path);
  }

  /** How one task may go on: with its path and lock, holding the lock only if it did or if it was free. */
  predicate GoesOn(tasks: seq<Task>, t: nat, next: Task)
    requires t < |tasks|
  {
    next.Done? ||
    (Live(tasks[t]) && Live(next) && next.path == tasks[t].path && next.lock == tasks[t].lock &&
     (HoldsLock(next, next.lock) ==> HoldsLock(tasks[t], next.lock) || Free(tasks, next.lock)))
  }

  lemma GoingOnKeepsSyncInv(s: State, after: State, t: nat, next: Task)
    requires SyncInv(s) && t < |s.tasks| && GoesOn(s.tasks, t, next)
    requires after.tasks == s.tasks[t := next] && after.locks == s.locks
    ensures SyncInv(after)
  {
  }

  lemma TaskStepGoesOn(resolve: string -> string, s: State, t: nat, e: Event)
    requires SyncInv(s) && t < |s.tasks|
    ensures var after := TaskStep(s, resolve, t, e);
            after.locks == s.locks &&
            (after.tasks == s.tasks ||
             (|after.tasks| == |s.tasks| && after.tasks == s.tasks[t := after.tasks[t]] &&
              GoesOn(s.tasks, t, after.tasks[t])))
  {
  }

  lemma StepKeepsSyncInv(resolve: string -> string, s: State, e: Event)
    requires SyncInv(s) && !e.StartChange? && KeepsLocksInUse(s, e)
    ensures SyncInv(Step(s, resolve, e))
  {
    if e.StartSync? {
      StartKeepsSyncInv(resolve, s, e.path);
    } else if e.task < |s.tasks| {
      var after := Step(s, resolve, e);
      TaskStepGoesOn(resolve, s, e.task, e);
      if after.tasks != s.tasks {
        GoingOnKeepsSyncInv(s, after, e.task, after.tasks[e.task]);
      }
    }
  }

  /** Only synchronised requests run. */
  predicate OnlySync(events: seq<Event>)
    decreases |events|
  {
    events != [] ==> OnlySync(events[..|events| - 1]) && !events[|events| - 1].StartChange?
  }

  /** No event of a run evicts a lock in use. */
  predicate AllKeepLocksInUse(resolve: string -> string, events: seq<Event>)
    decreases |events|
  {
    events != [] ==>
      AllKeepLocksInUse(resolve, events[..|events| - 1]) &&
      KeepsLocksInUse(Run(resolve, events[..|events| - 1]), events[|events| - 1])
  }

  lemma {:induction false} RunKeepsSyncInv(resolve: string -> string, events: seq<Event>)
    requires OnlySync(events) && AllKeepLocksInUse(resolve, events)
    ensures SyncInv(Run(resolve, events))
    decreases |events|
  {
    if events != [] {
      RunKeepsSyncInv(resolve, events[..|events| - 1]);
      StepKeepsSyncInv(resolve, Run(resolve, events[..|events| - 1]), events[|events| - 1]);
    }
  }

  /** Two tasks never open one path at once. */
  lemma OneOpener(s: State, t: nat, u: nat)
    requires SyncInv(s) && t < u < |s.tasks| && s.tasks[t].Opening? && s.tasks[u].Opening?
    ensures s.tasks[t].path != s.tasks[u].path
  {
    assert HasLock(s.locks.table, s.tasks[t].path, s.tasks[t].lock);
    assert HasLock(s.locks.table, s.tasks[u].path, s.tasks[u].lock);
  }

  lemma {:induction false} CountOfOne(tasks: seq<Task>, p: string)
    requires NoChanges(tasks)
    requires forall t, u :: 0 <= t < u < |tasks| && tasks[t].Opening? && tasks[u].Opening? ==> tasks[t].path != tasks[u].path
    ensures OpeningCount(tasks, p) == Bit(IsOpening(tasks, p))
  {
    if tasks != [] {
      var init, last := tasks[..|tasks| - 1], |tasks| - 1;
      CountOfOne(init, p);
      if IsOpening(init, p) {
        var t :| 0 <= t < |init| && init[t].Opening? && init[t].path == p;
        assert tasks[t] == init[t];
      }
      if IsOpening(tasks, p) && !InOpening(tasks[last], p) {
        var t :| 0 <= t < |tasks| && tasks[t].Opening? && tasks[t].path == p;
        assert init[t] == tasks[t];
      }
    }
  }

  lemma OpeningsOfSync(s: State, p: string)
    requires SyncInv(s)
    ensures OpeningCount(s.tasks, p) == Bit(IsOpening(s.tasks, p))
  {
    forall t, u | 0 <= t < u < |s.tasks| && s.tasks[t].Opening? && s.tasks[u].Opening?
      ensures s.tasks[t].path != s.tasks[u].path
    {
      OneOpener(s, t, u);
    }
    CountOfOne(s.tasks, p);
  }

  /** A path is marked at most once, and from then on the file is open and not opened by it again. */
  predicate MarkedOnce(resolve: string -> string, s: State, p: string, marks: nat) {
    marks <= 1 && (marks == 1 ==> FileOf(s.files, resolve(p)).isOpen && !IsOpening(s.tasks, p))
  }

  lemma NoLongerOpening(s: State, t: nat, next: Task, p: string)
    requires SyncInv(s) && t < |s.tasks| && s.tasks[t].Opening? && s.tasks[t].path == p && !InOpening(next, p)
    ensures !IsOpening(s.tasks[t := next], p)
  {
    var tasks := s.tasks[t := next];
    forall u | 0 <= u < |tasks| ensures !(tasks[u].Opening? && tasks[u].path == p) {
      if u < t {
        if s.tasks[u].Opening? {
          OneOpener(s, u, t);
        }
      } else if u > t {
        if s.tasks[u].Opening? {
          OneOpener(s, t, u);
        }
      }
    }
  }

  lemma StepKeepsMarkedOnce(resolve: string -> string, s: State, e: Event, p: string, marks: nat)
    requires SyncInv(s) && !e.StartChange? && MarkedOnce(resolve, s, p, marks)
    ensures MarkedOnce(resolve, Step(s, resolve, e), p, marks + Bit(MarksOpen(s, e, p)))
  {
    if MarksOpen(s, e, p) {
      assert IsOpening(s.tasks, p);
      NoLongerOpening(s, e.task, Requesting(p, s.tasks[e.task].lock), p);
    }
  }

  lemma {:induction false} RunMarksOnce(resolve: string -> string, events: seq<Event>, p: string)
    requires OnlySync(events) && AllKeepLocksInUse(resolve, events)
    ensures MarkedOnce(resolve, Run(resolve, events), p, Marks(resolve, events, p))
    decreases |events|
  {
    if events != [] {
      var init := events[..|events| - 1];
      RunMarksOnce(resolve, init, p);
      RunKeepsSyncInv(resolve, init);
      StepKeepsMarkedOnce(resolve, Run(resolve, init), events[|init|], p, Marks(resolve, init, p));
    }
  }

  /** Whether the file was marked open by this path or is being opened by it. */
  predicate OpenByPath(resolve: string -> string, events: seq<Event>, p: string) {
    Marks(resolve, events, p) > 0 || IsOpening(Run(resolve, events).tasks, p)
  }

  /** When only synchronised requests run and no lock in use is evicted, a path has been opened as often as
      its opening failed, and once more if it was marked open or is being opened. */
  lemma OpenCountExactly(resolve: string -> string, events: seq<Event>, p: string)
    requires OnlySync(events) && AllKeepLocksInUse(resolve, events)
    ensures OpenCount(Run(resolve, events).log, p) ==
            FailedOpenings(resolve, events, p) + Bit(OpenByPath(resolve, events, p))
  {
    EveryOpenIsAccounted(resolve, events, p);
    RunKeepsSyncInv(resolve, events);
    OpeningsOfSync(Run(resolve, events), p);
    RunMarksOnce(resolve, events, p);
  }

  // ----- at most one didOpen

  predicate PathsOpenedOnce(log: seq<Notification>) {
    forall i, j :: 0 <= i < j < |log| && log[i].DidOpen? && log[j].DidOpen? ==> log[i].path != log[j].path
  }

  predicate FilesOpenedOnce(resolve: string -> string, log: seq<Notification>) {
    forall i, j :: 0 <= i < j < |log| && log[i].DidOpen? && log[j].DidOpen? ==> resolve(log[i].path) != resolve(log[j].path)
  }

  /** No opening of the path failed, or one did and the path was not opened again. */
  predicate OpenedWithoutRetry(resolve: string -> string, events: seq<Event>, p: string) {
    FailedOpenings(resolve, events, p) == 0 ||
    (FailedOpenings(resolve, events, p) == 1 && !OpenByPath(resolve, events, p))
  }

  lemma {:induction false} CountAtLeast(log: seq<Notification>, i: nat)
    requires i < |log| && log[i].DidOpen?
    ensures OpenCount(log, log[i].path) >= 1
  {
    if i < |log| - 1 {
      CountAtLeast(log[..|log| - 1], i);
    }
  }

  lemma {:induction false} CountTwice(log: seq<Notification>, i: nat, j: nat)
    requires i < j < |log| && log[i].DidOpen? && log[j] == log[i]
    ensures OpenCount(log, log[i].path) >= 2
  {
    var init := log[..|log| - 1];
    if j < |log| - 1 {
      CountTwice(init, i, j);
    } else {
      CountAtLeast(init, i);
    }
  }

  lemma {:induction false} NoneCounted(log: seq<Notification>, p: string)
    requires forall i :: 0 <= i < |log| ==> log[i] != DidOpen(p)
    ensures OpenCount(log, p) == 0
  {
    if log != [] {
      NoneCounted(log[..|log| - 1], p);
    }
  }

  lemma {:induction false} OnceIsCount(log: seq<Notification>, p: string)
    requires PathsOpenedOnce(log)
    ensures OpenCount(log, p) <= 1
  {
    if log != [] {
      var init := log[..|log| - 1];
      if log[|log| - 1] == DidOpen(p) {
        forall i | 0 <= i < |init| ensures init[i] != DidOpen(p) {
          assert init[i] == log[i];
        }
        NoneCounted(init, p);
      } else {
        OnceIsCount(init, p);
      }
    }
  }

  lemma CountIsOnce(log: seq<Notification>)
    requires forall p :: OpenCount(log, p) <= 1
    ensures PathsOpenedOnce(log)
  {
    forall i, j | 0 <= i < j < |log| && log[i].DidOpen? && log[j].DidOpen? ensures log[i].path != log[j].path {
      if log[i] == log[j] {
        CountTwice(log, i, j);
      }
    }
  }

  /** When only synchronised requests run and no lock in use is evicted, each path is opened at most once
      exactly when no path was opened again after its opening had failed. */
  lemma PathsOpenedOnceExactly(resolve: string -> string, events: seq<Event>)
    requires OnlySync(events) && AllKeepLocksInUse(resolve, events)
    ensures PathsOpenedOnce(Run(resolve, events).log) <==> forall p :: OpenedWithoutRetry(resolve, events, p)
  {
    var log := Run(resolve, events).log;
    forall p ensures OpenCount(log, p) <= 1 <==> OpenedWithoutRetry(resolve, events, p) {
      OpenCountExactly(resolve, events, p);
    }
    if PathsOpenedOnce(log) {
      forall p ensures OpenedWithoutRetry(resolve, events, p) {
        OnceIsCount(log, p);
      }
    }
    if forall p :: OpenedWithoutRetry(resolve, events, p) {
      CountIsOnce(log);
    }
  }

  ghost function OpenedPaths(log: seq<Notification>): iset<string> {
    iset i | 0 <= i < |log| && log[i].DidOpen? :: log[i].path
  }

  lemma OncePerFile(resolve: string -> string, log: seq<Notification>)
    ensures FilesOpenedOnce(resolve, log) <==> PathsOpenedOnce(log) && InjectiveOn(resolve, OpenedPaths(log))
  {
    if FilesOpenedOnce(resolve, log) {
      forall p, q | p in OpenedPaths(log) && q in OpenedPaths(log) && resolve(p) == resolve(q) ensures p == q {
        var i, j :| 0 <= i < |log| && 0 <= j < |log| && log[i] == DidOpen(p) && log[j] == DidOpen(q);
      }
    }
    if InjectiveOn(resolve, OpenedPaths(log)) {
      forall i, j | 0 <= i < j < |log| && log[i].DidOpen? && log[j].DidOpen? && resolve(log[i].path) == resolve(log[j].path)
        ensures log[i].path == log[j].path
      {
        assert log[i].path in OpenedPaths(log) && log[j].path in OpenedPaths(log);
      }
    }
  }

  /** Under the same premises each file is opened at most once exactly when, besides, it was not opened by
      two paths. */
  lemma FilesOpenedOnceExactly(resolve: string -> string, events: seq<Event>)
    requires OnlySync(events) && AllKeepLocksInUse(resolve, events)
    ensures var log := Run(resolve, events).log;
            FilesOpenedOnce(resolve, log) <==>
            (forall p :: OpenedWithoutRetry(resolve, events, p)) && InjectiveOn(resolve, OpenedPaths(log))
  {
    PathsOpenedOnceExactly(resolve, events);
    OncePerFile(resolve, Run(resolve, events).log);
  }

  ghost predicate NoFailedOpening(resolve: string -> string, events: seq<Event>) {
    forall p :: FailedOpenings(resolve, events, p) == 0
  }

  /** When only synchronised requests run, no lock in use is evicted, no opening fails and no path is an alias
      of another, at most one didOpen is ever written for each file. */
  lemma OpenedAtMostOnce(resolve: string -> string, events: seq<Event>)
    requires OnlySync(events) && AllKeepLocksInUse(resolve, events) && NoFailedOpening(resolve, events)
    requires InjectiveOn(resolve, PathsUsed(events))
    ensures FilesOpenedOnce(resolve, Run(resolve, events).log)
  {
    var log := Run(resolve, events).log;
    RunPathsAmong(resolve, events, PathsUsed(events));
    InjectiveOnFewer(resolve, OpenedPaths(log), PathsUsed(events));
    FilesOpenedOnceExactly(resolve, events);
  }

  // ----- how often a path is changed, and what becomes of a file

  function ChangeCount(log: seq<Notification>, p: string): nat {
    if log == [] then 0
    else ChangeCount(log[..|log| - 1], p) +
         (if log[|log| - 1].DidChange? && log[|log| - 1].path == p then 1 else 0)
  }

  /** Whether an event is a change of a file that is open and not stale. */
  predicate ChangesAtOnce(resolve: string -> string, s: State, e: Event, p: string) {
    e.StartChange? && e.path == p &&
    var f := FileOf(s.files, resolve(p));
    f.isOpen && !(f.mtime > 0.0 && e.mtime > f.mtime)
  }

  /** Whether an event ends the didOpen of a change handler. */
  predicate ChangesAfterOpening(s: State, e: Event, p: string) {
    e.Opened? && e.task < |s.tasks| && s.tasks[e.task] == ChangeOpening(p)
  }

  function Changes(resolve: string -> string, events: seq<Event>, p: string): nat {
    if events == [] then 0
    else
      var init, e := events[..|events| - 1], events[|events| - 1];
      Changes(resolve, init, p) +
      Bit(ChangesAtOnce(resolve, Run(resolve, init), e, p) || ChangesAfterOpening(Run(resolve, init), e, p))
  }

  /** A step writes nothing, or one notification. */
  predicate WritesOne(before: State, after: State) {
    after.log == before.log || (|after.log| > |before.log| && after.log == before.log + [after.log[|before.log|]])
  }

  lemma ChangeCountAppend(log: seq<Notification>, n: Notification, p: string)
    ensures ChangeCount(log + [n], p) == ChangeCount(log, p) + Bit(n.DidChange? && n.path == p)
  {
    assert (log + [n])[..|log|] == log;
  }

  lemma StepChanges(resolve: string -> string, s: State, e: Event, p: string)
    ensures var after := Step(s, resolve, e);
            WritesOne(s, after) &&
            (ChangesAtOnce(resolve, s, e, p) || ChangesAfterOpening(s, e, p) <==>
              after.log != s.log && after.log[|s.log|].DidChange? && after.log[|s.log|].path == p)
  {
  }

  /** In every interleaving a path is changed exactly once for each change that found the file open and not
      stale, and for each change handler whose didOpen was drained. */
  lemma {:induction false} EveryChangeIsSent(resolve: string -> string, events: seq<Event>, p: string)
    ensures ChangeCount(Run(resolve, events).log, p) == Changes(resolve, events, p)
  {
    if events != [] {
      var init, e := events[..|events| - 1], events[|events| - 1];
      var s, after := Run(resolve, init), Run(resolve, events);
      EveryChangeIsSent(resolve, init, p);
      StepChanges(resolve, s, e, p);
      if after.log != s.log {
        ChangeCountAppend(s.log, after.log[|s.log|], p);
      }
    }
  }

  /** A change handler that opened a file sends one change, two versions on. */
  lemma OpenedChangeIsSent(resolve: string -> string, s: State, t: nat)
    requires t < |s.tasks| && s.tasks[t].ChangeOpening?
    ensures var p, after := s.tasks[t].path, Step(s, resolve, Opened(t));
            after.log == s.log + [DidChange(p, FileOf(s.files, resolve(p)).version + 2)] && after.tasks[t].Done? &&
            FileOf(after.files, resolve(p)) == OpenState(true, FileOf(s.files, resolve(p)).version + 2,
                                                         FileOf(s.files, resolve(p)).mtime)
  {
  }

  /** Whether an event marks a file open: a didOpen of one of its paths was drained, or a change handler failed
      behind it. */
  predicate MarksFile(resolve: string -> string, s: State, e: Event, key: string) {
    (e.Opened? || e.FailAfterMark?) && e.task < |s.tasks| &&
    (s.tasks[e.task].ChangeOpening? || (e.Opened? && s.tasks[e.task].Opening?)) && resolve(s.tasks[e.task].path) == key
  }

  /** The mtime an event records for a file. */
  function RecordedMtime(resolve: string -> string, s: State, e: Event, key: string): Option<real> {
    if e.Answered? && e.task < |s.tasks| && s.tasks[e.task].Requesting? && resolve(s.tasks[e.task].path) == key
    then e.recorded else None
  }

  function FileMarks(resolve: string -> string, events: seq<Event>, key: string): nat {
    if events == [] then 0
    else
      var init, e := events[..|events| - 1], events[|events| - 1];
      FileMarks(resolve, init, key) + Bit(MarksFile(resolve, Run(resolve, init), e, key))
  }

  function LastMtime(resolve: string -> string, events: seq<Event>, key: string): real {
    if events == [] then 0.0
    else
      var init, e := events[..|events| - 1], events[|events| - 1];
      match RecordedMtime(resolve, Run(resolve, init), e, key)
      case Some(mtime) => mtime
      case None => LastMtime(resolve, init, key)
  }

  function FileChangeCount(resolve: string -> string, log: seq<Notification>, key: string): nat {
    if log == [] then 0
    else FileChangeCount(resolve, log[..|log| - 1], key) +
         (if log[|log| - 1].DidChange? && resolve(log[|log| - 1].path) == key then 1 else 0)
  }

  lemma FileChangeCountAppend(resolve: string -> string, log: seq<Notification>, n: Notification, key: string)
    ensures FileChangeCount(resolve, log + [n], key) ==
            FileChangeCount(resolve, log, key) + Bit(n.DidChange? && resolve(n.path) == key)
  {
    assert (log + [n])[..|log|] == log;
  }

  /** What a step does to one file. */
  predicate FileStep(resolve: string -> string, s: State, e: Event, after: State, key: string) {
    var f, g := FileOf(s.files, key), FileOf(after.files, key);
    var marked := MarksFile(resolve, s, e, key);
    WritesOne(s, after) &&
    var changed := after.log != s.log && after.log[|s.log|].DidChange? && resolve(after.log[|s.log|].path) == key;
    g.isOpen == (f.isOpen || marked) && g.version == f.version + Bit(marked) + Bit(changed) &&
    g.mtime == match RecordedMtime(resolve, s, e, key) case Some(mtime) => mtime case None => f.mtime
  }

  lemma TaskStepFile(resolve: string -> string, s: State, e: Event, key: string)
    requires !Starts(e) && e.task < |s.tasks|
    ensures FileStep(resolve, s, e, TaskStep(s, resolve, e.task, e), key)
  {
  }

  lemma StepFile(resolve: string -> string, s: State, e: Event, key: string)
    ensures FileStep(resolve, s, e, Step(s, resolve, e), key)
  {
    if !Starts(e) && e.task < |s.tasks| {
      TaskStepFile(resolve, s, e, key);
    }
  }

  /** What the cache knows of a file after any interleaving: it is open exactly if it was marked, its version
      counts the marks and the changes written, and its mtime is the last one recorded. */
  lemma {:induction false} FileStateExactly(resolve: string -> string, events: seq<Event>, key: string)
    ensures var s := Run(resolve, events);
            var f := FileOf(s.files, key);
            (f.isOpen <==> FileMarks(resolve, events, key) > 0) &&
            f.version == FileMarks(resolve, events, key) + FileChangeCount(resolve, s.log, key) &&
            f.mtime == LastMtime(resolve, events, key)
  {
    if events != [] {
      var init, e := events[..|events| - 1], events[|events| - 1];
      var s, after := Run(resolve, init), Run(resolve, events);
      FileStateExactly(resolve, init, key);
      StepFile(resolve, s, e, key);
      if after.log != s.log {
        FileChangeCountAppend(resolve, s.log, after.log[|s.log|], key);
      }
    }
  }

  // ----- locks

  predicate Holding(t: Task) {
    t.Opening? || t.Requesting?
  }

  /** No two tasks hold the same lock. */
  predicate LocksExclude(tasks: seq<Task>) {
    forall t, u :: 0 <= t < u < |tasks| && Holding(tasks[t]) && Holding(tasks[u]) ==> tasks[t].lock != tasks[u].lock
  }

  lemma StepKeepsLocksExclude(resolve: string -> string, s: State, e: Event)
    requires LocksExclude(s.tasks)
    ensures LocksExclude(Step(s, resolve, e).tasks)
  {
  }

  /** In every interleaving a lock has at most one holder. */
  lemma {:induction false} LocksAlwaysExclude(resolve: string -> string, events: seq<Event>)
    ensures LocksExclude(Run(resolve, events).tasks)
  {
    if events != [] {
      LocksAlwaysExclude(resolve, events[..|events| - 1]);
      StepKeepsLocksExclude(resolve, Run(resolve, events[..|events| - 1]), events[|events| - 1]);
    }
  }

  // ----- every handler can finish

  function Rank(t: Task): nat {
    match t
    case Queued(_, _) => 3
    case Opening(_, _) => 2
    case Requesting(_, _) => 1
    case ChangeOpening(_) => 1
    case Done => 0
  }

  function TotalRank(tasks: seq<Task>): nat {
    if tasks == [] then 0 else TotalRank(tasks[..|tasks| - 1]) + Rank(tasks[|tasks| - 1])
  }

  lemma {:induction false} TotalRankUpdate(tasks: seq<Task>, t: nat, next: Task)
    requires t < |tasks|
    ensures TotalRank(tasks[t := next]) + Rank(tasks[t]) == TotalRank(tasks) + Rank(next)
  {
    var last := |tasks| - 1;
    if t == last {
      assert tasks[t := next][..last] == tasks[..last];
    } else {
      TotalRankUpdate(tasks[..last], t, next);
      assert tasks[t := next][..last] == tasks[..last][t := next];
    }
  }

  /** A request that awaits its answer has its file open. */
  predicate RequestsAreOpen(resolve: string -> string, s: State) {
    forall t :: 0 <= t < |s.tasks| && s.tasks[t].Requesting? ==> FileOf(s.files, resolve(s.tasks[t].path)).isOpen
  }

  lemma StepKeepsOpen(resolve: string -> string, s: State, e: Event)
    ensures forall key :: FileOf(s.files, key).isOpen ==> FileOf(Step(s, resolve, e).files, key).isOpen
  {
  }

  lemma StepKeepsRequestsOpen(resolve: string -> string, s: State, e: Event)
    requires RequestsAreOpen(resolve, s)
    ensures RequestsAreOpen(resolve, Step(s, resolve, e))
  {
    StepKeepsOpen(resolve, s, e);
  }

  lemma {:induction false} RunKeepsRequestsOpen(resolve: string -> string, events: seq<Event>)
    ensures RequestsAreOpen(resolve, Run(resolve, events))
  {
    if events != [] {
      RunKeepsRequestsOpen(resolve, events[..|events| - 1]);
      StepKeepsRequestsOpen(resolve, Run(resolve, events[..|events| - 1]), events[|events| - 1]);
    }
  }

  /** An event that takes a task further; a task that ends leaves its file open. */
  predicate TakesFurther(resolve: string -> string, s: State, e: Event) {
    (e.Acquire? || e.Opened? || e.Answered?) && e.task < |s.tasks| && !s.tasks[e.task].Done? &&
    var after, t := Step(s, resolve, e), e.task;
    |after.tasks| == |s.tasks| && after.tasks == s.tasks[t := after.tasks[t]] &&
    Rank(after.tasks[t]) < Rank(s.tasks[t]) &&
    if after.tasks[t].Done? then FileOf(after.files, resolve(s.tasks[t].path)).isOpen
    else after.tasks[t].path == s.tasks[t].path
  }

  /** The next suspended task to go on: one that holds a lock or opens a file, else one that waits. */
  lemma SomeTaskCanGoOn(resolve: string -> string, s: State) returns (e: Event)
    requires RequestsAreOpen(resolve, s) && exists t :: 0 <= t < |s.tasks| && !s.tasks[t].Done?
    ensures TakesFurther(resolve, s, e)
  {
    if t :| 0 <= t < |s.tasks| && !s.tasks[t].Done? && !s.tasks[t].Queued? {
      e := if s.tasks[t].Requesting? then Answered(t, None) else Opened(t);
    } else {
      var t :| 0 <= t < |s.tasks| && !s.tasks[t].Done?;
      assert Free(s.tasks, s.tasks[t].lock);
      e := Acquire(t);
    }
  }

  function RunFrom(resolve: string -> string, s: State, events: seq<Event>): State
    decreases |events|
  {
    if events == [] then s else RunFrom(resolve, Step(s, resolve, events[0]), events[1..])
  }

  lemma {:induction false} RunThen(resolve: string -> string, events: seq<Event>, more: seq<Event>)
    ensures Run(resolve, events + more) == RunFrom(resolve, Run(resolve, events), more)
    decreases |more|
  {
    if more == [] {
      assert events + more == events;
    } else {
      MoveFirst(events, more);
      RunAppend(resolve, events, more[0]);
      RunThen(resolve, events + [more[0]], more[1..]);
    }
  }

  lemma MoveFirst(events: seq<Event>, more: seq<Event>)
    requires more != []
    ensures events + more == events + [more[0]] + more[1..]
  {
  }

  /** All tasks are done, and the files of those that were not are open. */
  ghost predicate AllFinished(resolve: string -> string, s: State, after: State) {
    |after.tasks| == |s.tasks| && (forall t :: 0 <= t < |after.tasks| ==> after.tasks[t].Done?) &&
    (forall t :: 0 <= t < |s.tasks| && !s.tasks[t].Done? ==> FileOf(after.files, resolve(s.tasks[t].path)).isOpen) &&
    (forall key :: FileOf(s.files, key).isOpen ==> FileOf(after.files, key).isOpen)
  }

  predicate OnlyGoingOn(events: seq<Event>) {
    forall n :: 0 <= n < |events| ==> events[n].Acquire? || events[n].Opened? || events[n].Answered?
  }

  lemma {:induction false} FinishFrom(resolve: string -> string, s: State) returns (more: seq<Event>)
    requires RequestsAreOpen(resolve, s)
    ensures OnlyGoingOn(more) && AllFinished(resolve, s, RunFrom(resolve, s, more))
    decreases TotalRank(s.tasks)
  {
    more := [];
    if exists t :: 0 <= t < |s.tasks| && !s.tasks[t].Done? {
      var e := SomeTaskCanGoOn(resolve, s);
      var next := Step(s, resolve, e);
      TotalRankUpdate(s.tasks, e.task, next.tasks[e.task]);
      StepKeepsRequestsOpen(resolve, s, e);
      StepKeepsOpen(resolve, s, e);
      var rest := FinishFrom(resolve, next);
      more := [e] + rest;
      FinishedBefore(resolve, s, e, RunFrom(resolve, next, rest));
      assert more[1..] == rest;
    }
  }

  lemma FinishedBefore(resolve: string -> string, s: State, e: Event, after: State)
    requires TakesFurther(resolve, s, e) && AllFinished(resolve, Step(s, resolve, e), after)
    ensures AllFinished(resolve, s, after)
  {
    var next := Step(s, resolve, e);
    StepKeepsOpen(resolve, s, e);
    forall t | 0 <= t < |s.tasks| && !s.tasks[t].Done? ensures FileOf(after.files, resolve(s.tasks[t].path)).isOpen {
      if t != e.task {
        assert next.tasks[t] == s.tasks[t];
      }
    }
  }

  /** No interleaving deadlocks: from every state that is reached, granting locks, draining and answering alone
      end every handler, and leave every file open that a handler was at. */
  lemma CanAlwaysFinish(resolve: string -> string, events: seq<Event>) returns (more: seq<Event>)
    ensures OnlyGoingOn(more) && AllFinished(resolve, Run(resolve, events), Run(resolve, events + more))
  {
    RunKeepsRequestsOpen(resolve, events);
    more := FinishFrom(resolve, Run(resolve, events));
    RunThen(resolve, events, more);
  }

  // ----- when no lock in use is evicted

  function SyncPaths(events: seq<Event>): set<string> {
    set e | e in events && e.StartSync? :: e.path
  }

  /** Every looked-up path is still in the table. */
  predicate NothingEvicted(table: seq<Entry>, paths: set<string>) {
    |table| <= FILE_LOCKS_MAX && Distinct(table) && PathsFrom(table, 0) == paths
  }

  lemma RoomForAnotherPath(table: seq<Entry>, path: string, paths: set<string>)
    requires NothingEvicted(table, paths) && |paths + {path}| <= FILE_LOCKS_MAX
    ensures Dropped(table, path) == 0
  {
    DistinctPathsCount(table, 0);
    if Index(table, path) == |table| {
      assert path !in paths;
      assert |paths + {path}| == |paths| + 1;
    }
  }

  lemma LookupKeepsPaths(table: seq<Entry>, next: nat, path: string)
    requires Dropped(table, path) == 0
    ensures PathsFrom(Lookup(table, next, path), 0) == PathsFrom(table, 0) + {path}
  {
    var after := Lookup(table, next, path);
    LastEntry(table, next, path);
    forall q | q in PathsFrom(table, 0) ensures q in PathsFrom(after, 0) {
      var j :| 0 <= j < |table| && table[j].path == q;
      if j != Index(table, path) {
        var k := EntryTo(table, next, path, j);
        assert after[k].path == q;
      }
    }
    forall k | 0 <= k < |after| - 1 ensures after[k].path in PathsFrom(table, 0) {
      EntryFrom(table, next, path, k);
      assert table[From(table, path, k)].path in PathsFrom(table, 0);
    }
    assert after[|after| - 1].path in PathsFrom(after, 0);
  }

  lemma LookupEvictsNothing(table: seq<Entry>, next: nat, path: string, paths: set<string>)
    requires NothingEvicted(table, paths) && |paths + {path}| <= FILE_LOCKS_MAX
    ensures NothingEvicted(Lookup(table, next, path), paths + {path})
  {
    LookupKeepsValid(table, next, path);
    RoomForAnotherPath(table, path, paths);
    LookupKeepsPaths(table, next, path);
  }

  predicate LiveAmong(tasks: seq<Task>, paths: set<string>) {
    forall t :: 0 <= t < |tasks| && Live(tasks[t]) ==> tasks[t].path in paths
  }

  lemma StepKeepsLiveAmong(resolve: string -> string, s: State, e: Event, paths: set<string>)
    requires LiveAmong(s.tasks, paths) && (e.StartSync? ==> e.path in paths)
    ensures LiveAmong(Step(s, resolve, e).tasks, paths)
    ensures !e.StartSync? ==> Step(s, resolve, e).locks == s.locks
  {
  }

  lemma SyncPathsAppend(events: seq<Event>, e: Event)
    ensures SyncPaths(events + [e]) == if e.StartSync? then SyncPaths(events) + {e.path} else SyncPaths(events)
  {
    var all := events + [e];
    assert forall x :: x in all <==> x in events || x == e;
  }

  lemma {:induction false} FewPathsEvictNothing(resolve: string -> string, events: seq<Event>)
    requires |SyncPaths(events)| <= FILE_LOCKS_MAX
    ensures NothingEvicted(Run(resolve, events).locks.table, SyncPaths(events))
    ensures LiveAmong(Run(resolve, events).tasks, SyncPaths(events))
  {
    if events != [] {
      var init, e := events[..|events| - 1], events[|events| - 1];
      assert events == init + [e];
      SyncPathsAppend(init, e);
      SubsetCount(SyncPaths(init), SyncPaths(events));
      FewPathsEvictNothing(resolve, init);
      StepKeepsLiveAmong(resolve, Run(resolve, init), e, SyncPaths(events));
      if e.StartSync? {
        var locks := Run(resolve, init).locks;
        LookupEvictsNothing(locks.table, locks.created, e.path, SyncPaths(init));
      }
    } else {
      assert PathsFrom([], 0) == {} == SyncPaths([]);
    }
  }

  lemma LookupKeepsLocksInUse(resolve: string -> string, init: seq<Event>, path: string)
    requires |SyncPaths(init + [StartSync(path)])| <= FILE_LOCKS_MAX
    requires LiveAmong(Run(resolve, init).tasks, SyncPaths(init))
    ensures KeepsLocksInUse(Run(resolve, init), StartSync(path))
  {
    var e := StartSync(path);
    var s, table := Run(resolve, init), Run(resolve, init + [e]).locks.table;
    SyncPathsAppend(init, e);
    FewPathsEvictNothing(resolve, init + [e]);
    RunAppend(resolve, init, e);
    forall t | 0 <= t < |s.tasks| && Live(s.tasks[t]) ensures Index(table, s.tasks[t].path) < |table| {
      assert s.tasks[t].path in PathsFrom(table, 0);
    }
  }

  /** Up to FILE_LOCKS_MAX distinct paths no lock in use is ever evicted. */
  lemma {:induction false} FewPathsKeepLocksInUse(resolve: string -> string, events: seq<Event>)
    requires |SyncPaths(events)| <= FILE_LOCKS_MAX
    ensures AllKeepLocksInUse(resolve, events)
    decreases |events|
  {
    if events != [] {
      var init, e := events[..|events| - 1], events[|events| - 1];
      assert events == init + [e];
      SyncPathsAppend(init, e);
      SubsetCount(SyncPaths(init), SyncPaths(events));
      FewPathsKeepLocksInUse(resolve, init);
      FewPathsEvictNothing(resolve, init);
      if e.StartSync? {
        LookupKeepsLocksInUse(resolve, init, e.path);
      }
    }
  }

  /** Only synchronised requests, of which none fails to open its file, and no lock in use is evicted. */
  ghost predicate Orderly(resolve: string -> string, events: seq<Event>) {
    OnlySync(events) && AllKeepLocksInUse(resolve, events) && NoFailedOpening(resolve, events)
  }

  /** Every orderly run over these paths opens each file at most once. */
  ghost predicate AlwaysOpenedOnce(resolve: string -> string, paths: iset<string>) {
    forall events :: Orderly(resolve, events) && PathsUsed(events) <= paths ==>
      FilesOpenedOnce(resolve, Run(resolve, events).log)
  }

  // ----- without a premise a second didOpen is possible

  /** Without any race: a request opens the file and records its mtime, and a later change opens it again
      exactly if the mtime has grown since. */
  lemma StaleChangeOpensAgain(resolve: string -> string, p: string, recorded: real, mtime: real)
    ensures Run(resolve, [StartSync(p)] + [Acquire(0)] + [Opened(0)] + [Answered(0, Some(recorded))] +
                         [StartChange(p, mtime)]).log ==
            [DidOpen(p), if recorded > 0.0 && mtime > recorded then DidOpen(p) else DidChange(p, 2)]
  {
    var answered := [StartSync(p)] + [Acquire(0)] + [Opened(0)] + [Answered(0, Some(recorded))];
    OpenedAndAnswered(resolve, p, recorded);
    RunAppend(resolve, answered, StartChange(p, mtime));
  }

  lemma FirstOpened(resolve: string -> string, p: string)
    ensures var s := Run(resolve, [StartSync(p)] + [Acquire(0)] + [Opened(0)]);
            s.tasks == [Requesting(p, 0)] && s.files == map[resolve(p) := MarkedOpen(NEVER_OPENED)] && s.log == [DidOpen(p)]
  {
    FirstOpening(resolve, p);
    RunAppend(resolve, [StartSync(p)] + [Acquire(0)], Opened(0));
  }

  lemma OpenedAndAnswered(resolve: string -> string, p: string, recorded: real)
    ensures var s := Run(resolve, [StartSync(p)] + [Acquire(0)] + [Opened(0)] + [Answered(0, Some(recorded))]);
            FileOf(s.files, resolve(p)) == MarkedOpen(NEVER_OPENED).(mtime := recorded) && s.log == [DidOpen(p)]
  {
    FirstOpened(resolve, p);
    RunAppend(resolve, [StartSync(p)] + [Acquire(0)] + [Opened(0)], Answered(0, Some(recorded)));
  }

  /** A change handler takes no lock: it opens the file a request is already opening. */
  lemma ChangeOpensAgain(resolve: string -> string, p: string, mtime: real)
    ensures Run(resolve, [StartSync(p)] + [Acquire(0)] + [StartChange(p, mtime)]).log == [DidOpen(p), DidOpen(p)]
  {
    assert [] + [StartSync(p)] == [StartSync(p)];
    RunAppend(resolve, [], StartSync(p));
    RunAppend(resolve, [StartSync(p)], Acquire(0));
    RunAppend(resolve, [StartSync(p)] + [Acquire(0)], StartChange(p, mtime));
  }

  lemma FailedFirst(resolve: string -> string, p: string)
    ensures Run(resolve, [StartSync(p)] + [Acquire(0)] + [Fail(0)]) ==
            State(map[], Locks([Entry(p, 0)], 1), [Done], [DidOpen(p)])
  {
    assert [] + [StartSync(p)] == [StartSync(p)];
    RunAppend(resolve, [], StartSync(p));
    RunAppend(resolve, [StartSync(p)], Acquire(0));
    RunAppend(resolve, [StartSync(p)] + [Acquire(0)], Fail(0));
  }

  /** A request that fails while its didOpen drains leaves the file unmarked. */
  lemma FailureOpensAgain(resolve: string -> string, p: string)
    ensures Run(resolve, [StartSync(p)] + [Acquire(0)] + [Fail(0)] + [StartSync(p)] + [Acquire(1)]).log ==
            [DidOpen(p), DidOpen(p)]
  {
    var failed, locks := [StartSync(p)] + [Acquire(0)] + [Fail(0)], Locks([Entry(p, 0)], 1);
    FailedFirst(resolve, p);
    RunAppend(resolve, failed, StartSync(p));
    assert LookupLocks(locks, p) == locks;
    assert Run(resolve, failed + [StartSync(p)]) == State(map[], locks, [Done, Queued(p, 0)], [DidOpen(p)]);
    RunAppend(resolve, failed + [StartSync(p)], Acquire(1));
  }

  lemma SecondOpens(resolve: string -> string, p: string, q: string)
    requires p != q
    ensures Run(resolve, [StartSync(p)] + [Acquire(0)] + [StartSync(q)]) ==
            State(map[], Locks([Entry(p, 0), Entry(q, 1)], 2), [Opening(p, 0), Queued(q, 1)], [DidOpen(p)])
  {
    var first, both := Locks([Entry(p, 0)], 1), Locks([Entry(p, 0), Entry(q, 1)], 2);
    FirstOpening(resolve, p);
    RunAppend(resolve, [StartSync(p)] + [Acquire(0)], StartSync(q));
    assert Index(first.table, q) == 1 && Index(both.table, q) == 1;
    assert LookupLocks(first, q) == both;
  }

  /** Aliases have different locks: both open the file, one request after the other. */
  lemma AliasesOpenTwice(resolve: string -> string, p: string, q: string)
    requires resolve(p) == resolve(q) && p != q
    ensures var log := Run(resolve, [StartSync(p)] + [Acquire(0)] + [StartSync(q)] + [Acquire(1)]).log;
            log == [DidOpen(p), DidOpen(q)] && !FilesOpenedOnce(resolve, log)
  {
    SecondOpens(resolve, p, q);
    RunAppend(resolve, [StartSync(p)] + [Acquire(0)] + [StartSync(q)], Acquire(1));
    TwoOpens(resolve, [DidOpen(p), DidOpen(q)]);
  }

  lemma TwoOpens(resolve: string -> string, log: seq<Notification>)
    requires |log| == 2 && log[0].DidOpen? && log[1].DidOpen? && resolve(log[0].path) == resolve(log[1].path)
    ensures !FilesOpenedOnce(resolve, log)
  {
  }

  lemma FirstOpening(resolve: string -> string, p: string)
    ensures Run(resolve, [StartSync(p)] + [Acquire(0)]) ==
            State(map[], LookupLocks(NO_LOCKS, p), [Opening(p, 0)], [DidOpen(p)])
    ensures LookupLocks(NO_LOCKS, p) == Locks([Entry(p, 0)], 1)
  {
    assert [] + [StartSync(p)] == [StartSync(p)];
    RunAppend(resolve, [], StartSync(p));
    assert Run(resolve, [StartSync(p)]) == State(map[], LookupLocks(NO_LOCKS, p), [Queued(p, 0)], []);
    RunAppend(resolve, [StartSync(p)], Acquire(0));
  }

  /** Two requests are no failure and evict nothing, so aliases alone break the property. */
  lemma AliasBreaksOpenedOnce(resolve: string -> string, paths: iset<string>, p: string, q: string)
    requires p in paths && q in paths && resolve(p) == resolve(q) && p != q
    ensures !AlwaysOpenedOnce(resolve, paths)
  {
    var events := [StartSync(p)] + [Acquire(0)] + [StartSync(q)] + [Acquire(1)];
    assert events == [StartSync(p), Acquire(0), StartSync(q), Acquire(1)];
    AliasesOpenTwice(resolve, p, q);
    assert SyncPaths(events) <= {p, q};
    SubsetCount(SyncPaths(events), {p, q});
    FewPathsKeepLocksInUse(resolve, events);
    NeverFails(resolve, events);
    assert PathsUsed(events) <= paths;
    assert OnlySync(events) by {
      SyncOnly(events);
    }
  }

  lemma {:induction false} SyncOnly(events: seq<Event>)
    requires forall e :: e in events ==> !e.StartChange?
    ensures OnlySync(events)
    decreases |events|
  {
    if events != [] {
      SyncOnly(events[..|events| - 1]);
    }
  }

  lemma {:induction false} NeverFails(resolve: string -> string, events: seq<Event>)
    requires forall e :: e in events ==> !e.Fail?
    ensures NoFailedOpening(resolve, events)
    decreases |events|
  {
    if events != [] {
      NeverFails(resolve, events[..|events| - 1]);
      assert events[|events| - 1] in events;
    }
  }

  /** The runs of synchronised requests over a set of paths, without an eviction of a lock in use or a failed
      opening, all open each file at most once exactly when no two of the paths are aliases. */
  lemma AlwaysOpenedOnceExactly(resolve: string -> string, paths: iset<string>)
    ensures AlwaysOpenedOnce(resolve, paths) <==> InjectiveOn(resolve, paths)
  {
    if InjectiveOn(resolve, paths) {
      forall events | Orderly(resolve, events) && PathsUsed(events) <= paths
        ensures FilesOpenedOnce(resolve, Run(resolve, events).log)
      {
        InjectiveOnFewer(resolve, PathsUsed(events), paths);
        OpenedAtMostOnce(resolve, events);
      }
    } else {
      var p, q :| p in paths && q in paths && resolve(p) == resolve(q) && p != q;
      AliasBreaksOpenedOnce(resolve, paths, p, q);
    }
  }

  // ----- a run that evicts the lock of a file being opened

  /** Requests for some paths, each of which gets its lock at once. */
  function RequestEach(paths: seq<string>): seq<Event> {
    if paths == [] then []
    else
      var n := |paths| - 1;
      RequestEach(paths[..n]) + [StartSync(paths[n])] + [Acquire(n)]
  }

  function DidOpens(paths: seq<string>): (log: seq<Notification>)
    ensures |log| == |paths| && forall k :: 0 <= k < |paths| ==> log[k] == DidOpen(paths[k])
  {
    seq(|paths|, k requires 0 <= k < |paths| => DidOpen(paths[k]))
  }

  /** Nothing is marked open, and every task is opening with a lock of its own. */
  predicate AllOpening(s: State) {
    s.files == map[] && forall t :: 0 <= t < |s.tasks| ==> s.tasks[t].Opening? && s.tasks[t].lock < s.locks.created
  }

  lemma ManyOthersEvict(p: string, others: seq<string>)
    requires |others| == FILE_LOCKS_MAX && AllDistinct([p] + others)
    ensures var s := Lookups(NO_LOCKS, [p] + others); Index(s.table, p) == |s.table|
  {
    var last := others[FILE_LOCKS_MAX - 1];
    var paths := [p] + others[..FILE_LOCKS_MAX - 1];
    assert [p] + others == paths + [last];
    assert paths[0] == p;
    AllDistinctInit(paths, last);
    OneMoreDistinctPathLosesLock(paths, 0, last);
  }

  /** A path that was not looked up has no entry. */
  lemma {:induction false} NotLookedUp(history: seq<string>, path: string)
    requires path !in history
    ensures Index(Lookups(NO_LOCKS, history).table, path) == |Lookups(NO_LOCKS, history).table|
  {
    if history != [] {
      var init, last := history[..|history| - 1], history[|history| - 1];
      var s := Lookups(NO_LOCKS, init);
      NotLookedUp(init, path);
      LookupAddsOnly(s.table, s.created, last, path);
      assert history == init + [last];
    }
  }

  lemma LookupAddsOnly(table: seq<Entry>, next: nat, last: string, path: string)
    requires path != last && Index(table, path) == |table|
    ensures Index(Lookup(table, next, last), path) == |Lookup(table, next, last)|
  {
    var after := Lookup(table, next, last);
    LastEntry(table, next, last);
    forall k | 0 <= k < |after| - 1 ensures after[k].path != path {
      EntryFrom(table, next, last, k);
    }
  }

  /** A request for a path without an entry gets a fresh lock and opens the file. */
  lemma FreshLockOpens(resolve: string -> string, events: seq<Event>, p: string, t: nat)
    requires var s := Run(resolve, events); AllOpening(s) && Index(s.locks.table, p) == |s.locks.table| && t == |s.tasks|
    ensures OneMoreOpening(Run(resolve, events), Run(resolve, events + [StartSync(p)] + [Acquire(t)]), p)
  {
    var s := Run(resolve, events);
    RunAppend(resolve, events, StartSync(p));
    RunAppend(resolve, events + [StartSync(p)], Acquire(t));
    FreshLock(s, resolve, p);
    FreshLockIsFree(s, resolve, Step(s, resolve, StartSync(p)), p);
  }

  predicate OneMoreOpening(s: State, after: State, p: string) {
    AllOpening(after) && after.locks == LookupLocks(s.locks, p) && |after.tasks| == |s.tasks| + 1 &&
    after.log == s.log + [DidOpen(p)]
  }

  lemma FreshLockIsFree(s: State, resolve: string -> string, next: State, p: string)
    requires AllOpening(s) && next.tasks == s.tasks + [Queued(p, s.locks.created)] && next.locks.created > s.locks.created
    requires next.files == s.files && next.log == s.log && next.locks == LookupLocks(s.locks, p)
    ensures OneMoreOpening(s, Step(next, resolve, Acquire(|s.tasks|)), p)
  {
    assert Free(next.tasks, s.locks.created);
    var after := Step(next, resolve, Acquire(|s.tasks|));
    assert after.tasks == s.tasks + [Opening(p, s.locks.created)];
  }

  lemma FreshLock(s: State, resolve: string -> string, p: string)
    requires Index(s.locks.table, p) == |s.locks.table|
    ensures var next := Step(s, resolve, StartSync(p));
            next.tasks == s.tasks + [Queued(p, s.locks.created)] && next.locks.created == s.locks.created + 1
  {
    var table := Step(s, resolve, StartSync(p)).locks.table;
    assert Index(Evicted(s.locks.table), p) == |Evicted(s.locks.table)|;
    assert table[|table| - 1] == Entry(p, s.locks.created);
    assert Index(table, p) == |table| - 1;
  }

  /** Every path of the history is being opened, by the request that looked its lock up. */
  predicate Opens(s: State, history: seq<string>) {
    AllOpening(s) && |s.tasks| == |history| && s.log == DidOpens(history) && s.locks == Lookups(NO_LOCKS, history)
  }

  /** Requests for different paths that get their locks at once open them all. */
  lemma {:induction false} AllOpen(resolve: string -> string, paths: seq<string>)
    requires AllDistinct(paths)
    ensures Opens(Run(resolve, RequestEach(paths)), paths)
    decreases |paths|
  {
    if paths != [] {
      var init, last := paths[..|paths| - 1], paths[|paths| - 1];
      assert paths == init + [last];
      AllDistinctInit(init, last);
      AllOpen(resolve, init);
      NotLookedUp(init, last);
      RequestLast(init, last);
      FreshLockOpens(resolve, RequestEach(init), last, |init|);
      OneMoreOpens(Run(resolve, RequestEach(init)), Run(resolve, RequestEach(paths)), init, last);
    }
  }

  lemma AllDistinctInit(paths: seq<string>, last: string)
    requires AllDistinct(paths + [last])
    ensures AllDistinct(paths) && last !in paths
  {
    var all := paths + [last];
    forall i, j | 0 <= i < j < |paths| ensures paths[i] != paths[j] {
      assert all[i] == paths[i] && all[j] == paths[j];
    }
    forall i | 0 <= i < |paths| ensures paths[i] != last {
      assert all[i] == paths[i] && all[|paths|] == last;
    }
  }

  lemma OneMoreOpens(s: State, after: State, history: seq<string>, path: string)
    requires Opens(s, history) && OneMoreOpening(s, after, path)
    ensures Opens(after, history + [path])
  {
    LookupsAppend(NO_LOCKS, history, path);
    DidOpensAppend(history, path);
  }

  lemma DidOpensAppend(history: seq<string>, path: string)
    ensures DidOpens(history + [path]) == DidOpens(history) + [DidOpen(path)]
  {
  }

  lemma RequestLast(paths: seq<string>, last: string)
    ensures RequestEach(paths + [last]) == RequestEach(paths) + [StartSync(last)] + [Acquire(|paths|)]
  {
    assert (paths + [last])[..|paths|] == paths;
  }

  /** While p is being opened, requests for FILE_LOCKS_MAX other paths evict its lock, and the next request
      for p opens it again. */
  lemma EvictionOpensAgain(resolve: string -> string, p: string, others: seq<string>)
    requires |others| == FILE_LOCKS_MAX && AllDistinct([p] + others)
    ensures Run(resolve, RequestEach([p] + others + [p])).log == DidOpens([p] + others + [p])
  {
    var paths := [p] + others;
    AllOpen(resolve, paths);
    ManyOthersEvict(p, others);
    RequestLast(paths, p);
    FreshLockOpens(resolve, RequestEach(paths), p, |paths|);
    DidOpensAppend(paths, p);
  }
}

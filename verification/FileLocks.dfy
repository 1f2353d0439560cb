/** The per-file lock table: least recently used locks are evicted in halves. */
module FileLocks {
  import opened Sequences

  const FILE_LOCKS_MAX := 1000

  datatype Entry = Entry(path: string, lock: nat)

  function Index(table: seq<Entry>, path: string): (i: nat)
    ensures i <= |table|
    ensures i < |table| ==> table[i].path == path
    ensures forall k :: 0 <= k < i ==> table[k].path != path
  {
    if table == [] || table[0].path == path then 0 else 1 + Index(table[1..], path)
  }

  /** The oldest half is dropped when the table is full. */
  function Evicted(table: seq<Entry>): seq<Entry> {
    if |table| >= FILE_LOCKS_MAX then table[FILE_LOCKS_MAX / 2..] else table
  }

  function MovedToEnd(table: seq<Entry>, i: nat): seq<Entry>
    requires i < |table|
  {
    table[..i] + table[i + 1..] + [table[i]]
  }

  lemma MovedToEndAt(table: seq<Entry>, i: nat, k: nat)
    requires i < |table| && k < |table| - 1
    ensures |MovedToEnd(table, i)| == |table|
    ensures MovedToEnd(table, i)[k] == table[if k < i then k else k + 1]
  {
  }

  /** The table after a lookup; a new lock is numbered next. */
  function Lookup(table: seq<Entry>, next: nat, path: string): seq<Entry> {
    var i := Index(table, path);
    if i < |table| then MovedToEnd(table, i) else Evicted(table) + [Entry(path, next)]
  }

  predicate Distinct(table: seq<Entry>) {
    forall j, k :: 0 <= j < k < |table| ==> table[j].path != table[k].path
  }

  class LockTable {
    var table: seq<Entry>  // least recently used first
    var created: nat

    predicate Valid()
      reads this
    {
      |table| <= FILE_LOCKS_MAX && Distinct(table)
    }

    constructor ()
      ensures Valid() && table == [] && created == 0
    {
      table, created := [], 0;
    }

    /** The lock of a path; the table keeps its bound and its order. */
    method GetFileLock(path: string) returns (lock: nat)
      requires Valid()
      modifies this
      ensures Valid() && table == Lookup(old(table), old(created), path)
      ensures table != [] && table[|table| - 1] == Entry(path, lock)
      ensures created == if Index(old(table), path) < |old(table)| then old(created) else old(created) + 1
    {
      LookupKeepsValid(table, created, path);
      var i := Index(table, path);
      if i == |table| {
        if |table| >= FILE_LOCKS_MAX {
          var popped := 0;
          while popped < FILE_LOCKS_MAX / 2
            invariant popped <= FILE_LOCKS_MAX / 2 && table == old(table)[popped..]
            invariant created == old(created)
          {
            table := table[1..];
            popped := popped + 1;
          }
        }
        assert table == Evicted(old(table));
        table := table + [Entry(path, created)];
        lock := created;
        created := created + 1;
      } else {
        lock := table[i].lock;
        table := table[..i] + table[i + 1..] + [table[i]];
      }
    }
  }

  // ----- where entries go

  /** How many of the oldest entries a lookup evicts. */
  function Dropped(table: seq<Entry>, path: string): (d: nat)
    ensures d <= |table|
  {
    if Index(table, path) == |table| then |table| - |Evicted(table)| else 0
  }

  /** Where entry k of the table comes from, the last entry excepted. */
  function From(table: seq<Entry>, path: string, k: nat): nat {
    if k + Dropped(table, path) < Index(table, path) then k + Dropped(table, path) else k + 1
  }

  lemma EntryFrom(table: seq<Entry>, next: nat, path: string, k: nat)
    requires k < |Lookup(table, next, path)| - 1
    ensures Dropped(table, path) <= From(table, path, k) < |table|
    ensures From(table, path, k) != Index(table, path)
    ensures Lookup(table, next, path)[k] == table[From(table, path, k)]
  {
    var i := Index(table, path);
    if i < |table| {
      MovedToEndAt(table, i, k);
    } else {
      assert Lookup(table, next, path)[k] == Evicted(table)[k];
    }
  }

  lemma EntryTo(table: seq<Entry>, next: nat, path: string, j: nat) returns (k: nat)
    requires Dropped(table, path) <= j < |table| && j != Index(table, path)
    ensures k < |Lookup(table, next, path)| - 1 && From(table, path, k) == j
    ensures Lookup(table, next, path)[k] == table[j]
  {
    k := if j < Index(table, path) then j - Dropped(table, path) else j - 1;
    EntryFrom(table, next, path, k);
  }

  lemma LastEntry(table: seq<Entry>, next: nat, path: string)
    ensures var after := Lookup(table, next, path); after != [] && after[|after| - 1].path == path
    ensures var after, i := Lookup(table, next, path), Index(table, path);
            i < |table| ==> after[|after| - 1] == table[i]
  {
  }

  lemma LookupKeepsValid(table: seq<Entry>, next: nat, path: string)
    requires |table| <= FILE_LOCKS_MAX && Distinct(table)
    ensures |Lookup(table, next, path)| <= FILE_LOCKS_MAX && Distinct(Lookup(table, next, path))
  {
    var after := Lookup(table, next, path);
    LastEntry(table, next, path);
    forall j, k | 0 <= j < k < |after| ensures after[j].path != after[k].path {
      EntryFrom(table, next, path, j);
      if k < |after| - 1 {
        EntryFrom(table, next, path, k);
      }
    }
  }

  lemma FoundAt(table: seq<Entry>, path: string, i: nat)
    requires Distinct(table) && i < |table| && table[i].path == path
    ensures Index(table, path) == i
  {
  }

  // ----- the table against the history of lookups

  datatype Locks = Locks(table: seq<Entry>, created: nat)

  function LookupLocks(s: Locks, path: string): Locks {
    Locks(Lookup(s.table, s.created, path),
          if Index(s.table, path) < |s.table| then s.created else s.created + 1)
  }

  function Lookups(s: Locks, paths: seq<string>): Locks {
    if paths == [] then s else LookupLocks(Lookups(s, paths[..|paths| - 1]), paths[|paths| - 1])
  }

  const NO_LOCKS := Locks([], 0)

  lemma LookupsAppend(s: Locks, paths: seq<string>, path: string)
    ensures Lookups(s, paths + [path]) == LookupLocks(Lookups(s, paths), path)
  {
    assert (paths + [path])[..|paths|] == paths;
  }

  /** The position of the last lookup of a path, -1 if there is none. */
  function LastLookup(history: seq<string>, path: string): (i: int)
    ensures -1 <= i < |history|
  {
    if history == [] then -1
    else if history[|history| - 1] == path then |history| - 1
    else LastLookup(history[..|history| - 1], path)
  }

  lemma LastLookupAppend(history: seq<string>, path: string, p: string)
    ensures LastLookup(history + [path], p) == if p == path then |history| else LastLookup(history, p)
  {
    assert (history + [path])[..|history|] == history;
  }

  predicate Increasing(table: seq<Entry>, last: string -> int) {
    (forall k :: 0 <= k < |table| ==> last(table[k].path) >= 0) &&
    (forall j, k :: 0 <= j < k < |table| ==> last(table[j].path) < last(table[k].path))
  }

  ghost predicate OlderThan(p: string, table: seq<Entry>, last: string -> int) {
    forall k :: 0 <= k < |table| ==> last(p) < last(table[k].path)
  }

  ghost predicate AbsentAreOlder(table: seq<Entry>, last: string -> int) {
    forall p :: Index(table, p) == |table| ==> OlderThan(p, table, last)
  }

  /** Every path of the table was looked up, in the order of the table, and later than any path that
      is not in the table. */
  ghost predicate InOrder(table: seq<Entry>, last: string -> int) {
    Increasing(table, last) && AbsentAreOlder(table, last)
  }

  ghost predicate InRecencyOrder(table: seq<Entry>, history: seq<string>) {
    InOrder(table, p => LastLookup(history, p))
  }

  lemma AbsentWasOlder(table: seq<Entry>, next: nat, path: string, last: string -> int, p: string, k: nat)
    requires InOrder(table, last) && k < |Lookup(table, next, path)| - 1
    requires Index(Lookup(table, next, path), p) == |Lookup(table, next, path)|
    ensures p != path && last(p) < last(Lookup(table, next, path)[k].path)
  {
    LastEntry(table, next, path);
    EntryFrom(table, next, path, k);
    var j := Index(table, p);
    if j == |table| {
      assert OlderThan(p, table, last);
    } else if j >= Dropped(table, path) && j != Index(table, path) {
      var to := EntryTo(table, next, path, j);
      assert false;
    }
  }

  /** Looking a path up makes it the last one. */
  ghost predicate Updates(last: string -> int, path: string, later: string -> int) {
    later(path) >= 0 && forall p :: p != path ==> later(p) == last(p) < later(path)
  }

  lemma EntryKeepsRank(table: seq<Entry>, next: nat, path: string, last: string -> int, later: string -> int, k: nat)
    requires Updates(last, path, later) && k < |Lookup(table, next, path)| - 1
    requires Increasing(table, last)
    ensures var p := Lookup(table, next, path)[k].path;
            p == table[From(table, path, k)].path && p != path && 0 <= last(p) == later(p) < later(path)
  {
    EntryFrom(table, next, path, k);
    var i, j := Index(table, path), From(table, path, k);
    if i < |table| {
      assert last(table[j].path) != last(table[i].path);
    }
  }

  lemma LookupKeepsIncreasing(table: seq<Entry>, next: nat, path: string, last: string -> int, later: string -> int)
    requires Increasing(table, last) && Updates(last, path, later)
    ensures Increasing(Lookup(table, next, path), later)
  {
    var after := Lookup(table, next, path);
    LastEntry(table, next, path);
    forall k | 0 <= k < |after| ensures later(after[k].path) >= 0 {
      if k < |after| - 1 {
        EntryKeepsRank(table, next, path, last, later, k);
      }
    }
    forall j, k | 0 <= j < k < |after| ensures later(after[j].path) < later(after[k].path) {
      EntryKeepsRank(table, next, path, last, later, j);
      if k < |after| - 1 {
        EntryKeepsRank(table, next, path, last, later, k);
        EntryFrom(table, next, path, k);
      }
    }
  }

  lemma LookupKeepsOrder(table: seq<Entry>, next: nat, path: string, last: string -> int, later: string -> int)
    requires InOrder(table, last) && Updates(last, path, later)
    ensures InOrder(Lookup(table, next, path), later)
  {
    var after := Lookup(table, next, path);
    LastEntry(table, next, path);
    LookupKeepsIncreasing(table, next, path, last, later);
    forall p | Index(after, p) == |after| ensures OlderThan(p, after, later) {
      forall k | 0 <= k < |after| ensures later(p) < later(after[k].path) {
        if k < |after| - 1 {
          AbsentWasOlder(table, next, path, last, p, k);
          EntryKeepsRank(table, next, path, last, later, k);
        }
      }
    }
  }

  /** After any lookups the table holds distinct paths, at most FILE_LOCKS_MAX of them, the most
      recently looked up ones, in the order of their last lookups. */
  lemma {:induction false} TableIsRecent(history: seq<string>)
    ensures var table := Lookups(NO_LOCKS, history).table;
            |table| <= FILE_LOCKS_MAX && Distinct(table) && InRecencyOrder(table, history)
  {
    if history != [] {
      var init, path := history[..|history| - 1], history[|history| - 1];
      var s := Lookups(NO_LOCKS, init);
      assert history == init + [path];
      TableIsRecent(init);
      LookupKeepsValid(s.table, s.created, path);
      forall p ensures LastLookup(history, p) == if p == path then |init| else LastLookup(init, p) {
        LastLookupAppend(init, path, p);
      }
      LookupKeepsOrder(s.table, s.created, path, p => LastLookup(init, p), p => LastLookup(history, p));
    }
  }

  predicate LocksDiffer(s: Locks) {
    (forall k :: 0 <= k < |s.table| ==> s.table[k].lock < s.created) &&
    (forall j, k :: 0 <= j < k < |s.table| ==> s.table[j].lock != s.table[k].lock)
  }

  lemma LookupKeepsLocksDifferent(s: Locks, path: string)
    requires LocksDiffer(s)
    ensures LocksDiffer(LookupLocks(s, path))
  {
    var after := Lookup(s.table, s.created, path);
    LastEntry(s.table, s.created, path);
    forall k | 0 <= k < |after| - 1
      ensures after[k].lock < s.created && after[k].lock != after[|after| - 1].lock
    {
      EntryFrom(s.table, s.created, path, k);
    }
    forall j, k | 0 <= j < k < |after| - 1 ensures after[j].lock != after[k].lock {
      EntryFrom(s.table, s.created, path, j);
      EntryFrom(s.table, s.created, path, k);
    }
  }

  /** No two paths of the table ever share a lock. */
  lemma {:induction false} PathsNeverShareLocks(history: seq<string>)
    ensures LocksDiffer(Lookups(NO_LOCKS, history))
  {
    if history != [] {
      PathsNeverShareLocks(history[..|history| - 1]);
      LookupKeepsLocksDifferent(Lookups(NO_LOCKS, history[..|history| - 1]), history[|history| - 1]);
    }
  }

  // ----- retention

  function Others(paths: seq<string>, path: string): set<string> {
    set q | q in paths && q != path
  }

  function PathsFrom(table: seq<Entry>, i: nat): set<string> {
    set k | i <= k < |table| :: table[k].path
  }

  lemma {:induction false} DistinctPathsCount(table: seq<Entry>, i: nat)
    requires Distinct(table) && i <= |table|
    ensures |PathsFrom(table, i)| == |table| - i
    decreases |table| - i
  {
    if i < |table| {
      DistinctPathsCount(table, i + 1);
      assert PathsFrom(table, i) == PathsFrom(table, i + 1) + {table[i].path};
    } else {
      assert PathsFrom(table, i) == {};
    }
  }

  lemma SubsetCount(a: set<string>, b: set<string>)
    requires a <= b
    ensures |a| <= |b|
  {
    assert a + (b - a) == b;
  }

  /** Whether the path has this lock, with only these paths looked up more recently. */
  predicate Holds(table: seq<Entry>, path: string, lock: nat, recent: set<string>) {
    var i := Index(table, path);
    i < |table| && table[i].lock == lock && PathsFrom(table, i + 1) <= recent
  }

  lemma RecentCount(table: seq<Entry>, i: nat, recent: set<string>, q: string)
    requires Distinct(table) && i < |table| && PathsFrom(table, i + 1) <= recent
    requires q !in PathsFrom(table, i + 1)
    ensures |table| - i <= |recent + {q}|
  {
    var paths := PathsFrom(table, i + 1);
    DistinctPathsCount(table, i + 1);
    assert |paths + {q}| == |paths| + 1;
    SubsetCount(paths + {q}, recent + {q});
  }

  /** A new path evicts only paths with at least half a table of more recent ones. */
  lemma NotDropped(table: seq<Entry>, path: string, lock: nat, recent: set<string>, q: string)
    requires |table| <= FILE_LOCKS_MAX && Distinct(table)
    requires Holds(table, path, lock, recent)
    requires |recent + {q}| <= FILE_LOCKS_MAX / 2
    ensures Index(table, path) >= Dropped(table, q)
  {
    if Index(table, q) == |table| {
      RecentCount(table, Index(table, path), recent, q);
    }
  }

  lemma OneMoreLookup(table: seq<Entry>, next: nat, path: string, lock: nat, recent: set<string>, q: string)
    requires |table| <= FILE_LOCKS_MAX && Distinct(table)
    requires Holds(table, path, lock, recent)
    requires q != path && |recent + {q}| <= FILE_LOCKS_MAX / 2
    ensures Holds(Lookup(table, next, q), path, lock, recent + {q})
  {
    var after, i := Lookup(table, next, q), Index(table, path);
    NotDropped(table, path, lock, recent, q);
    LookupKeepsValid(table, next, q);
    LastEntry(table, next, q);
    var k := EntryTo(table, next, q, i);
    FoundAt(after, path, k);
    forall m | k < m < |after| ensures after[m].path in recent + {q} {
      if m < |after| - 1 {
        EntryFrom(table, next, q, m);
        assert table[From(table, q, m)].path in PathsFrom(table, i + 1);
      }
    }
  }

  lemma Refreshed(table: seq<Entry>, next: nat, path: string, lock: nat, recent: set<string>)
    requires |table| <= FILE_LOCKS_MAX && Distinct(table)
    requires Holds(table, path, lock, recent)
    ensures Holds(Lookup(table, next, path), path, lock, {})
  {
    var after := Lookup(table, next, path);
    LookupKeepsValid(table, next, path);
    LastEntry(table, next, path);
    FoundAt(after, path, |after| - 1);
  }

  /** A path keeps its lock as long as at most FILE_LOCKS_MAX / 2 distinct other paths have been looked
      up since. */
  lemma {:induction false} LockIsRetained(before: seq<string>, path: string, since: seq<string>, lock: nat)
    requires Holds(Lookups(NO_LOCKS, before + [path]).table, path, lock, {})
    requires |Others(since, path)| <= FILE_LOCKS_MAX / 2
    ensures Holds(Lookups(NO_LOCKS, before + [path] + since).table, path, lock, Others(since, path))
    decreases |since|
  {
    var first := before + [path];
    if since == [] {
      assert first + since == first;
    } else {
      var init, q := since[..|since| - 1], since[|since| - 1];
      var s := Lookups(NO_LOCKS, first + init);
      assert since == init + [q];
      SubsetCount(Others(init, path), Others(since, path));
      LockIsRetained(before, path, init, lock);
      Assoc(first, init, [q]);
      LookupsAppend(NO_LOCKS, first + init, q);
      TableIsRecent(first + init);
      if q == path {
        Refreshed(s.table, s.created, path, lock, Others(init, path));
      } else {
        assert Others(since, path) == Others(init, path) + {q};
        OneMoreLookup(s.table, s.created, path, lock, Others(init, path), q);
      }
    }
  }

  predicate AllDistinct(paths: seq<string>) {
    forall j, k :: 0 <= j < k < |paths| ==> paths[j] != paths[k]
  }

  lemma {:induction false} DistinctLookupsFillTable(paths: seq<string>)
    requires AllDistinct(paths) && |paths| <= FILE_LOCKS_MAX
    ensures var table := Lookups(NO_LOCKS, paths).table;
            |table| == |paths| && forall k :: 0 <= k < |table| ==> table[k].path == paths[k]
  {
    if paths != [] {
      DistinctLookupsFillTable(paths[..|paths| - 1]);
    }
  }

  lemma FullTableDropsHalf(table: seq<Entry>, next: nat, i: nat, last: string)
    requires |table| == FILE_LOCKS_MAX && Distinct(table) && i < FILE_LOCKS_MAX / 2 && Index(table, last) == |table|
    ensures var after := Lookup(table, next, last); Index(after, table[i].path) == |after|
  {
    var after := Lookup(table, next, last);
    LastEntry(table, next, last);
    forall k | 0 <= k < |after| ensures after[k].path != table[i].path {
      if k < |after| - 1 {
        EntryFrom(table, next, last, k);
      }
    }
  }

  /** The bound is tight: one distinct path more and the lock can be gone. The last path of the older
      half of a full table, i == FILE_LOCKS_MAX / 2 - 1, is lost when a new path arrives, although only
      FILE_LOCKS_MAX / 2 + 1 distinct other paths were looked up since. */
  lemma OneMoreDistinctPathLosesLock(paths: seq<string>, i: nat, last: string)
    requires |paths| == FILE_LOCKS_MAX && AllDistinct(paths) && last !in paths && i < FILE_LOCKS_MAX / 2
    ensures var table := Lookups(NO_LOCKS, paths + [last]).table; Index(table, paths[i]) == |table|
  {
    var s := Lookups(NO_LOCKS, paths);
    DistinctLookupsFillTable(paths);
    LookupsAppend(NO_LOCKS, paths, last);
    FullTableDropsHalf(s.table, s.created, i, last);
  }
}

/** The diagnostic cache of the language server client. Keys are absolute paths, `keyOf` takes a URI to
    its key. The cache is a dictionary, so its keys have the order of their first insertion. */
module DiagnosticCaches {
  import opened Wrappers
  import opened Sequences
  import opened OpenStates

  datatype FileState<D> = FileState(open: OpenState, resultId: Option<string>, document: seq<D>,
                                    workspace: seq<D>, hasWorkspace: bool, uri: string)

  datatype Write<D> =
    | DocumentWrite(uri: string, items: seq<D>, resultId: Option<string>)
    | WorkspaceWrite(uri: string, items: seq<D>)
    | OpenWrite(uri: string, recorded: Option<real>)
    | MtimeWrite(uri: string, mtime: real)
    | Increment(uri: string)
    | VersionWrite(uri: string, version: int)

  datatype Cache<D> = Cache(states: map<string, FileState<D>>, order: seq<string>)

  function EmptyState<D>(): FileState<D> {
    FileState(NEVER_OPENED, None, [], [], false, "")
  }

  function EmptyCache<D>(): Cache<D> {
    Cache(map[], [])
  }

  function StateOf<D>(c: Cache<D>, key: string): FileState<D> {
    if key in c.states then c.states[key] else EmptyState()
  }

  function WithVersion(o: OpenState, version: int): OpenState {
    if version >= o.version then o.(version := version) else o
  }

  function Updated<D>(f: FileState<D>, w: Write<D>): FileState<D> {
    match w
    case DocumentWrite(uri, items, None) => f.(document := items, uri := uri)
    case DocumentWrite(uri, items, Some(id)) => f.(document := items, uri := uri, resultId := Some(id))
    case WorkspaceWrite(uri, items) => f.(workspace := items, uri := uri, hasWorkspace := true)
    case OpenWrite(_, None) => f.(open := MarkedOpen(f.open))
    case OpenWrite(_, Some(mtime)) => f.(open := MarkedOpen(f.open).(mtime := mtime))
    case MtimeWrite(_, mtime) => f.(open := f.open.(mtime := mtime))
    case Increment(_) => f.(open := f.open.(version := f.open.version + 1))
    case VersionWrite(_, version) => f.(open := WithVersion(f.open, version))
  }

  function Put<D>(c: Cache<D>, key: string, f: FileState<D>): Cache<D> {
    Cache(c.states[key := f], if key in c.states then c.order else c.order + [key])
  }

  function Step<D>(keyOf: string -> string, c: Cache<D>, w: Write<D>): Cache<D> {
    Put(c, keyOf(w.uri), Updated(StateOf(c, keyOf(w.uri)), w))
  }

  function Run<D>(keyOf: string -> string, history: seq<Write<D>>): Cache<D> {
    if history == [] then EmptyCache()
    else Step(keyOf, Run(keyOf, history[..|history| - 1]), history[|history| - 1])
  }

  predicate Stale<D>(c: Cache<D>, key: string, mtime: real) {
    key in c.states && mtime > c.states[key].open.mtime
  }

  // ----- the workspace listing

  datatype Item<D> = Item(uri: string, version: int, items: seq<D>)

  function ItemOf<D>(f: FileState<D>, key: string): Item<D> {
    Item(if f.uri != "" then f.uri else key, f.open.version, f.workspace)
  }

  function Listed<D>(c: Cache<D>, order: seq<string>): seq<string> {
    if order == [] then []
    else if StateOf(c, order[0]).hasWorkspace then [order[0]] + Listed(c, order[1..])
    else Listed(c, order[1..])
  }

  function ItemsFor<D>(c: Cache<D>, key: string): seq<Item<D>> {
    if StateOf(c, key).hasWorkspace then [ItemOf(StateOf(c, key), key)] else []
  }

  function Listing<D>(c: Cache<D>, order: seq<string>): seq<Item<D>> {
    if order == [] then [] else ItemsFor(c, order[0]) + Listing(c, order[1..])
  }

  lemma {:induction false} ListingAppend<D>(c: Cache<D>, order: seq<string>, key: string)
    ensures Listing(c, order + [key]) == Listing(c, order) + ItemsFor(c, key)
  {
    var longer := order + [key];
    if order == [] {
      assert longer[0] == key && longer[1..] == [];
    } else {
      ListingAppend(c, order[1..], key);
      assert longer[0] == order[0] && longer[1..] == order[1..] + [key];
      Assoc(ItemsFor(c, order[0]), Listing(c, order[1..]), ItemsFor(c, key));
    }
  }

  class DiagnosticCache<D> {
    const keyOf: string -> string
    var states: map<string, FileState<D>>
    var order: seq<string>

    function View(): Cache<D>
      reads this
    {
      Cache(states, order)
    }

    constructor (keyOf: string -> string)
      ensures View() == EmptyCache() && this.keyOf == keyOf
    {
      this.keyOf := keyOf;
      states, order := map[], [];
    }

    /** The dictionary assignment all updates end with. */
    method Store(key: string, state: FileState<D>)
      modifies this
      ensures View() == Put(old(View()), key, state)
    {
      if key !in states {
        order := order + [key];
      }
      states := states[key := state];
    }

    method UpdateDocumentDiagnostics(uri: string, items: seq<D>, resultId: Option<string>)
      modifies this
      ensures View() == Step(keyOf, old(View()), DocumentWrite(uri, items, resultId))
    {
      var key := keyOf(uri);
      var state := StateOf(View(), key);
      state := state.(document := items);
      state := state.(uri := uri);
      if resultId.Some? {
        state := state.(resultId := resultId);
      }
      Store(key, state);
    }

    method UpdateWorkspaceDiagnostics(uri: string, items: seq<D>)
      modifies this
      ensures View() == Step(keyOf, old(View()), WorkspaceWrite(uri, items))
    {
      var key := keyOf(uri);
      var state := StateOf(View(), key);
      state := state.(workspace := items);
      state := state.(uri := uri);
      state := state.(hasWorkspace := true);
      Store(key, state);
    }

    method OnDidOpen(uri: string, recorded: Option<real>)
      modifies this
      ensures View() == Step(keyOf, old(View()), OpenWrite(uri, recorded))
    {
      var key := keyOf(uri);
      var state := StateOf(View(), key);
      var open := state.open.(isOpen := true);
      open := open.(version := open.version + 1);
      if recorded.Some? {
        open := open.(mtime := recorded.value);
      }
      Store(key, state.(open := open));
    }

    method SetMtime(uri: string, mtime: real)
      modifies this
      ensures View() == Step(keyOf, old(View()), MtimeWrite(uri, mtime))
    {
      var state := StateOf(View(), keyOf(uri));
      Store(keyOf(uri), state.(open := state.open.(mtime := mtime)));
    }

    method IncrementVersion(uri: string)
      modifies this
      ensures View() == Step(keyOf, old(View()), Increment(uri))
    {
      var state := StateOf(View(), keyOf(uri));
      Store(keyOf(uri), state.(open := state.open.(version := state.open.version + 1)));
    }

    method UpdateDocumentVersion(uri: string, version: int)
      modifies this
      ensures View() == Step(keyOf, old(View()), VersionWrite(uri, version))
    {
      var state := StateOf(View(), keyOf(uri));
      if version >= state.open.version {
        state := state.(open := state.open.(version := version));
      }
      Store(keyOf(uri), state);
    }

    method IsStale(uri: string, mtime: real) returns (stale: bool)
      ensures stale == Stale(View(), keyOf(uri), mtime)
    {
      if keyOf(uri) !in states {
        return false;
      }
      return mtime > states[keyOf(uri)].open.mtime;
    }

    method GetAllWorkspaceDiagnostics() returns (result: seq<Item<D>>)
      ensures result == Listing(View(), order)
    {
      result := [];
      for i := 0 to |order|
        invariant result == Listing(View(), order[..i])
      {
        var key := order[i];
        ListingAppend(View(), order[..i], key);
        assert order[..i + 1] == order[..i] + [key];
        var state := StateOf(View(), key);
        if !state.hasWorkspace {
          continue;
        }
        result := result + [Item(if state.uri != "" then state.uri else key, state.open.version, state.workspace)];
      }
      assert order[..|order|] == order;
    }
  }

  // ----- the cache against its history

  predicate WritesDocument<D>(keyOf: string -> string, w: Write<D>, key: string) {
    w.DocumentWrite? && keyOf(w.uri) == key
  }

  predicate WritesResultId<D>(keyOf: string -> string, w: Write<D>, key: string) {
    w.DocumentWrite? && w.resultId.Some? && keyOf(w.uri) == key
  }

  predicate WritesWorkspace<D>(keyOf: string -> string, w: Write<D>, key: string) {
    w.WorkspaceWrite? && keyOf(w.uri) == key
  }

  predicate WritesUri<D>(keyOf: string -> string, w: Write<D>, key: string) {
    (w.DocumentWrite? || w.WorkspaceWrite?) && keyOf(w.uri) == key
  }

  predicate Opens<D>(keyOf: string -> string, w: Write<D>, key: string) {
    w.OpenWrite? && keyOf(w.uri) == key
  }

  predicate RecordsMtime<D>(keyOf: string -> string, w: Write<D>, key: string) {
    (w.MtimeWrite? || (w.OpenWrite? && w.recorded.Some?)) && keyOf(w.uri) == key
  }

  function RecordedMtime<D>(w: Write<D>): real {
    if w.MtimeWrite? then w.mtime else if w.OpenWrite? && w.recorded.Some? then w.recorded.value else 0.0
  }

  /** The position of the last write in a history that satisfies p, -1 if there is none. */
  function Last<D>(history: seq<Write<D>>, p: Write<D> -> bool): (i: int)
    ensures -1 <= i < |history| && (i >= 0 ==> p(history[i]))
    ensures forall k :: i < k < |history| ==> !p(history[k])
  {
    if history == [] then -1
    else if p(history[|history| - 1]) then |history| - 1
    else Last(history[..|history| - 1], p)
  }

  function LastDocument<D>(keyOf: string -> string, history: seq<Write<D>>, key: string): int {
    Last(history, w => WritesDocument(keyOf, w, key))
  }

  function LastResultId<D>(keyOf: string -> string, history: seq<Write<D>>, key: string): int {
    Last(history, w => WritesResultId(keyOf, w, key))
  }

  function LastWorkspace<D>(keyOf: string -> string, history: seq<Write<D>>, key: string): int {
    Last(history, w => WritesWorkspace(keyOf, w, key))
  }

  function LastUri<D>(keyOf: string -> string, history: seq<Write<D>>, key: string): int {
    Last(history, w => WritesUri(keyOf, w, key))
  }

  lemma StateAfterStep<D>(keyOf: string -> string, history: seq<Write<D>>, key: string)
    requires history != []
    ensures var init, w := history[..|history| - 1], history[|history| - 1];
            StateOf(Run(keyOf, history), key) ==
            if keyOf(w.uri) == key then Updated(StateOf(Run(keyOf, init), key), w) else StateOf(Run(keyOf, init), key)
  {
  }

  /** After any writes a file's document list is that of its last document write, whatever was written
      to its workspace list or to other files. */
  lemma {:induction false} DocumentIsLastWritten<D>(keyOf: string -> string, history: seq<Write<D>>, key: string)
    ensures var i := LastDocument(keyOf, history, key);
            StateOf(Run(keyOf, history), key).document == if i < 0 then [] else history[i].items
  {
    if history != [] {
      DocumentIsLastWritten(keyOf, history[..|history| - 1], key);
      StateAfterStep(keyOf, history, key);
    }
  }

  /** Its result id is the last one given. */
  lemma {:induction false} ResultIdIsLastGiven<D>(keyOf: string -> string, history: seq<Write<D>>, key: string)
    ensures var i := LastResultId(keyOf, history, key);
            StateOf(Run(keyOf, history), key).resultId == if i < 0 then None else history[i].resultId
  {
    if history != [] {
      ResultIdIsLastGiven(keyOf, history[..|history| - 1], key);
      StateAfterStep(keyOf, history, key);
    }
  }

  /** Its workspace list is that of its last workspace write. */
  lemma {:induction false} WorkspaceIsLastWritten<D>(keyOf: string -> string, history: seq<Write<D>>, key: string)
    ensures var f, i := StateOf(Run(keyOf, history), key), LastWorkspace(keyOf, history, key);
            f.workspace == (if i < 0 then [] else history[i].items) && (f.hasWorkspace <==> i >= 0)
  {
    if history != [] {
      WorkspaceIsLastWritten(keyOf, history[..|history| - 1], key);
      StateAfterStep(keyOf, history, key);
    }
  }

  lemma {:induction false} UriIsLastWritten<D>(keyOf: string -> string, history: seq<Write<D>>, key: string)
    ensures var i := LastUri(keyOf, history, key);
            StateOf(Run(keyOf, history), key).uri == if i < 0 then "" else history[i].uri
  {
    if history != [] {
      UriIsLastWritten(keyOf, history[..|history| - 1], key);
      StateAfterStep(keyOf, history, key);
    }
  }

  /** A file is open once it was opened, and its mtime is the last one recorded. */
  lemma {:induction false} OpenStateIsLastRecorded<D>(keyOf: string -> string, history: seq<Write<D>>, key: string)
    ensures var open := StateOf(Run(keyOf, history), key).open;
            var i := Last(history, w => RecordsMtime(keyOf, w, key));
            (open.isOpen <==> Last(history, w => Opens(keyOf, w, key)) >= 0) &&
            open.mtime == if i < 0 then 0.0 else RecordedMtime(history[i])
  {
    if history != [] {
      OpenStateIsLastRecorded(keyOf, history[..|history| - 1], key);
      StateAfterStep(keyOf, history, key);
    }
  }

  lemma UpdateKeepsVersion<D>(f: FileState<D>, w: Write<D>)
    ensures Updated(f, w).open.version >= f.open.version
  {
  }

  /** No write ever lowers a file's version. */
  lemma {:induction false} VersionsNeverDecrease<D>(keyOf: string -> string, before: seq<Write<D>>,
                                                    after: seq<Write<D>>, key: string)
    ensures StateOf(Run(keyOf, before), key).open.version <= StateOf(Run(keyOf, before + after), key).open.version
    decreases |after|
  {
    if after == [] {
      assert before + after == before;
    } else {
      var init := after[..|after| - 1];
      VersionsNeverDecrease(keyOf, before, init, key);
      assert (before + after)[..|before + after| - 1] == before + init;
      StateAfterStep(keyOf, before + after, key);
      UpdateKeepsVersion(StateOf(Run(keyOf, before + init), key), (before + after)[|before + init|]);
    }
  }

  /** How often the version of a file was counted up from some point of the history on. */
  function Bumps<D>(keyOf: string -> string, history: seq<Write<D>>, key: string, from: nat): nat {
    if |history| <= from then 0
    else
      var w := history[|history| - 1];
      Bumps(keyOf, history[..|history| - 1], key, from) +
      (if keyOf(w.uri) == key && (w.OpenWrite? || w.Increment?) then 1 else 0)
  }

  /** Counting up from 0, or from the version that write i set. */
  function Counted<D>(keyOf: string -> string, history: seq<Write<D>>, key: string, i: int): int
    requires -1 <= i < |history|
  {
    (if i >= 0 && history[i].VersionWrite? then history[i].version else 0) + Bumps(keyOf, history, key, i + 1)
  }

  predicate Sets<D>(keyOf: string -> string, history: seq<Write<D>>, key: string, i: int) {
    i == -1 || (0 <= i < |history| && history[i].VersionWrite? && keyOf(history[i].uri) == key)
  }

  lemma CountedBefore<D>(keyOf: string -> string, history: seq<Write<D>>, key: string, i: int)
    requires history != [] && -1 <= i < |history| - 1
    ensures var w := history[|history| - 1];
            Counted(keyOf, history, key, i) ==
            Counted(keyOf, history[..|history| - 1], key, i) +
            (if keyOf(w.uri) == key && (w.OpenWrite? || w.Increment?) then 1 else 0)
  {
  }

  /** The version of a file is the largest there is: counting up from 0 or from any version set since. */
  lemma {:induction false} VersionExactly<D>(keyOf: string -> string, history: seq<Write<D>>, key: string)
    returns (best: int)
    ensures Sets(keyOf, history, key, best)
    ensures StateOf(Run(keyOf, history), key).open.version == Counted(keyOf, history, key, best)
    ensures forall i :: Sets(keyOf, history, key, i) ==>
              Counted(keyOf, history, key, i) <= StateOf(Run(keyOf, history), key).open.version
    decreases |history|
  {
    best := -1;
    if history != [] {
      var init, w := history[..|history| - 1], history[|history| - 1];
      best := VersionExactly(keyOf, init, key);
      StateAfterStep(keyOf, history, key);
      CountedBefore(keyOf, history, key, best);
      forall i | Sets(keyOf, history, key, i) && i < |init|
        ensures Counted(keyOf, history, key, i) ==
                Counted(keyOf, init, key, i) + (if keyOf(w.uri) == key && (w.OpenWrite? || w.Increment?) then 1 else 0)
        ensures Sets(keyOf, init, key, i)
      {
        CountedBefore(keyOf, history, key, i);
      }
      if w.VersionWrite? && keyOf(w.uri) == key && w.version >= StateOf(Run(keyOf, init), key).open.version {
        best := |init|;
      }
    }
  }

  // ----- the listing against the history

  /** The position of the first write to a file, |history| if there is none. */
  function FirstMention<D>(keyOf: string -> string, history: seq<Write<D>>, key: string): (i: nat)
    ensures i <= |history| && (i < |history| ==> keyOf(history[i].uri) == key)
    ensures forall k :: 0 <= k < i ==> keyOf(history[k].uri) != key
  {
    if history == [] then 0
    else if FirstMention(keyOf, history[..|history| - 1], key) < |history| - 1
    then FirstMention(keyOf, history[..|history| - 1], key)
    else if keyOf(history[|history| - 1].uri) == key then |history| - 1
    else |history|
  }

  predicate InFirstMentionOrder<D>(keyOf: string -> string, history: seq<Write<D>>, keys: seq<string>) {
    (forall i :: 0 <= i < |keys| ==> FirstMention(keyOf, history, keys[i]) < |history|) &&
    (forall i, j :: 0 <= i < j < |keys| ==>
      FirstMention(keyOf, history, keys[i]) < FirstMention(keyOf, history, keys[j]))
  }

  lemma {:induction false} OrderIsFirstMention<D>(keyOf: string -> string, history: seq<Write<D>>)
    ensures var c := Run(keyOf, history);
            InFirstMentionOrder(keyOf, history, c.order) && forall key :: key in c.order <==> key in c.states
  {
    if history != [] {
      var init, w := history[..|history| - 1], history[|history| - 1];
      OrderIsFirstMention(keyOf, init);
      var c := Run(keyOf, init);
      forall i | 0 <= i < |c.order|
        ensures FirstMention(keyOf, history, c.order[i]) == FirstMention(keyOf, init, c.order[i]) < |init|
      {
      }
      if keyOf(w.uri) !in c.states {
        NeverMentioned(keyOf, init, keyOf(w.uri));
      }
    }
  }

  lemma {:induction false} NeverMentioned<D>(keyOf: string -> string, history: seq<Write<D>>, key: string)
    requires key !in Run(keyOf, history).states
    ensures FirstMention(keyOf, history, key) == |history|
  {
    if history != [] {
      NeverMentioned(keyOf, history[..|history| - 1], key);
    }
  }

  lemma {:induction false} ListedIn<D>(c: Cache<D>, order: seq<string>, key: string)
    ensures key in Listed(c, order) <==> key in order && StateOf(c, key).hasWorkspace
  {
    if order != [] {
      ListedIn(c, order[1..], key);
      assert order == [order[0]] + order[1..];
    }
  }

  lemma MentionedBefore<D>(keyOf: string -> string, history: seq<Write<D>>, c: Cache<D>, order: seq<string>, key: string)
    requires order != [] && InFirstMentionOrder(keyOf, history, order) && key in Listed(c, order[1..])
    ensures FirstMention(keyOf, history, order[0]) < FirstMention(keyOf, history, key)
  {
    ListedIn(c, order[1..], key);
    var k :| 0 <= k < |order[1..]| && order[1..][k] == key;
    assert order[k + 1] == key;
  }

  lemma InOrderWithout<D>(keyOf: string -> string, history: seq<Write<D>>, keys: seq<string>)
    requires keys != [] && InFirstMentionOrder(keyOf, history, keys)
    ensures InFirstMentionOrder(keyOf, history, keys[1..])
  {
  }

  lemma {:induction false} ListedKeepsOrder<D>(keyOf: string -> string, history: seq<Write<D>>, c: Cache<D>,
                                               order: seq<string>)
    requires InFirstMentionOrder(keyOf, history, order)
    ensures InFirstMentionOrder(keyOf, history, Listed(c, order))
  {
    if order != [] {
      InOrderWithout(keyOf, history, order);
      ListedKeepsOrder(keyOf, history, c, order[1..]);
      var rest := Listed(c, order[1..]);
      forall j | 0 <= j < |rest|
        ensures FirstMention(keyOf, history, order[0]) < FirstMention(keyOf, history, rest[j])
      {
        MentionedBefore(keyOf, history, c, order, rest[j]);
      }
    }
  }

  lemma {:induction false} ListingOfListed<D>(c: Cache<D>, order: seq<string>)
    ensures var keys := Listed(c, order);
            |Listing(c, order)| == |keys| &&
            forall i :: 0 <= i < |keys| ==> Listing(c, order)[i] == ItemOf(StateOf(c, keys[i]), keys[i])
  {
    if order != [] {
      var keys, items := Listed(c, order[1..]), Listing(c, order[1..]);
      ListingOfListed(c, order[1..]);
      if StateOf(c, order[0]).hasWorkspace {
        var item := ItemOf(StateOf(c, order[0]), order[0]);
        assert Listed(c, order) == [order[0]] + keys && Listing(c, order) == [item] + items;
      } else {
        assert Listed(c, order) == keys && Listing(c, order) == [] + items == items;
      }
    }
  }

  /** What the history says of a listed file. */
  function ListedItem<D>(keyOf: string -> string, history: seq<Write<D>>, key: string): Item<D> {
    var i, j := LastUri(keyOf, history, key), LastWorkspace(keyOf, history, key);
    var uri := if i < 0 || history[i].uri == "" then key else history[i].uri;
    Item(uri, StateOf(Run(keyOf, history), key).open.version, if j < 0 then [] else history[j].items)
  }

  /** The workspace listing has exactly the files with a workspace write, in the order of their first
      mention by any write, each with its last workspace list. */
  lemma WorkspaceListing<D>(keyOf: string -> string, history: seq<Write<D>>) returns (keys: seq<string>)
    ensures forall key :: key in keys <==> LastWorkspace(keyOf, history, key) >= 0
    ensures InFirstMentionOrder(keyOf, history, keys)
    ensures var c := Run(keyOf, history);
            |Listing(c, c.order)| == |keys| &&
            forall i :: 0 <= i < |keys| ==> Listing(c, c.order)[i] == ListedItem(keyOf, history, keys[i])
  {
    var c := Run(keyOf, history);
    keys := Listed(c, c.order);
    OrderIsFirstMention(keyOf, history);
    ListedKeepsOrder(keyOf, history, c, c.order);
    ListingOfListed(c, c.order);
    forall key ensures key in keys <==> LastWorkspace(keyOf, history, key) >= 0 {
      ListedIn(c, c.order, key);
      WorkspaceIsLastWritten(keyOf, history, key);
    }
    forall i | 0 <= i < |keys| ensures Listing(c, c.order)[i] == ListedItem(keyOf, history, keys[i]) {
      UriIsLastWritten(keyOf, history, keys[i]);
      WorkspaceIsLastWritten(keyOf, history, keys[i]);
    }
  }
}

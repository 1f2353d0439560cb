/** Diagnostic requests through the cache. A request is two steps, before and after the server is
    awaited. */
module DiagnosticRequests {
  import opened Wrappers
  import Caches = DiagnosticCaches

  /** An entry of a list of diagnostics; the server may send entries that are no dictionaries. */
  datatype Entry<D> = Dictionary(diagnostic: D) | Other

  /** A report of the server; the URI of an unchanged report is empty when the report has none. */
  datatype Report<D> =
    | Full(items: seq<Entry<D>>, resultId: Option<string>)
    | Unchanged(uri: string, resultId: Option<string>)
    | Listed(items: seq<Entry<D>>)
    | Missing
    | Failure

  /** A request under way; `known` says whether the file's mtime could be read and was passed along. */
  datatype Sent = Sent(uri: string, mtime: real, known: bool, previous: Option<string>)

  datatype Answer<D> = Answer(key: string, mtime: real, items: seq<D>, failed: bool)

  datatype Event<D> =
    | Ask(uri: string, mtime: real, known: bool)
    | Reply(request: nat, report: Report<D>)
    | Background(write: Caches.Write<D>)  // any other write to the cache, such as publishDiagnostics

  /** Requests sent to the server are numbered in the order of sending. */
  datatype State<D> = State(cache: Caches.Cache<D>, pending: map<nat, Sent>, sent: nat, answers: seq<Answer<D>>)

  function Initial<D>(): State<D> {
    State(Caches.EmptyCache(), map[], 0, [])
  }

  function Document<D>(s: State<D>, key: string): seq<D> {
    Caches.StateOf(s.cache, key).document
  }

  function ResultId<D>(s: State<D>, key: string): Option<string> {
    Caches.StateOf(s.cache, key).resultId
  }

  function Mtime<D>(s: State<D>, key: string): real {
    Caches.StateOf(s.cache, key).open.mtime
  }

  /** Whether a request is answered from the cache. */
  predicate Hit<D>(s: State<D>, key: string, mtime: real, known: bool) {
    known && ResultId(s, key).Some? && !Caches.Stale(s.cache, key, mtime)
  }

  /** The entries that are dictionaries, in order. */
  function Typed<D>(items: seq<Entry<D>>): seq<D> {
    if items == [] then []
    else
      var init, last := Typed(items[..|items| - 1]), items[|items| - 1];
      if last.Dictionary? then init + [last.diagnostic] else init
  }

  function Normalized<D>(keyOf: string -> string, s: State<D>, report: Report<D>): (r: (seq<D>, Option<string>)) {
    match report
    case Full(items, id) => (Typed(items), id)
    case Unchanged(uri, id) => (Document(s, keyOf(uri)), id)
    case Listed(items) => (Typed(items), None)
    case _ => ([], None)
  }

  function AskStep<D>(keyOf: string -> string, s: State<D>, uri: string, mtime: real, known: bool): State<D> {
    var key := keyOf(uri);
    if Hit(s, key, mtime, known) then s.(answers := s.answers + [Answer(key, mtime, Document(s, key), false)])
    else s.(pending := s.pending[s.sent := Sent(uri, mtime, known, ResultId(s, key))], sent := s.sent + 1)
  }

  function Recorded<D>(keyOf: string -> string, cache: Caches.Cache<D>, sent: Sent,
                       normalized: (seq<D>, Option<string>)): Caches.Cache<D>
  {
    var written := Caches.Step(keyOf, cache, Caches.DocumentWrite(sent.uri, normalized.0, normalized.1));
    if sent.known then Caches.Step(keyOf, written, Caches.MtimeWrite(sent.uri, sent.mtime)) else written
  }

  function ReplyStep<D>(keyOf: string -> string, s: State<D>, r: nat, report: Report<D>): State<D>
    requires r in s.pending
  {
    var sent := s.pending[r];
    var key := keyOf(sent.uri);
    if report.Failure? then
      s.(pending := s.pending - {r}, answers := s.answers + [Answer(key, sent.mtime, Document(s, key), true)])
    else
      var normalized := Normalized(keyOf, s, report);
      s.(cache := Recorded(keyOf, s.cache, sent, normalized), pending := s.pending - {r},
         answers := s.answers + [Answer(key, sent.mtime, normalized.0, false)])
  }

  function Step<D>(keyOf: string -> string, s: State<D>, e: Event<D>): State<D> {
    match e
    case Ask(uri, mtime, known) => AskStep(keyOf, s, uri, mtime, known)
    case Reply(r, report) => if r in s.pending then ReplyStep(keyOf, s, r, report) else s
    case Background(write) => s.(cache := Caches.Step(keyOf, s.cache, write))
  }

  function Run<D>(keyOf: string -> string, events: seq<Event<D>>): State<D> {
    if events == [] then Initial() else Step(keyOf, Run(keyOf, events[..|events| - 1]), events[|events| - 1])
  }

  class DiagnosticClient<D> {
    const cache: Caches.DiagnosticCache<D>
    var pending: map<nat, Sent>
    var sent: nat
    var answers: seq<Answer<D>>  // what the callers were returned

    function View(): State<D>
      reads this, cache
    {
      State(cache.View(), pending, sent, answers)
    }

    constructor (keyOf: string -> string)
      ensures View() == Initial() && cache.keyOf == keyOf && fresh(cache)
    {
      cache := new Caches.DiagnosticCache<D>(keyOf);
      pending, sent, answers := map[], 0, [];
    }

    /** A request up to its await: a list from the cache, or a request to the server. */
    method BeginRequest(uri: string, mtime: real, known: bool)
      modifies this
      ensures View() == Step(cache.keyOf, old(View()), Ask(uri, mtime, known))
    {
      var key := cache.keyOf(uri);
      var state := Caches.StateOf(cache.View(), key);
      if state.resultId.Some? && known {
        var stale := cache.IsStale(uri, mtime);
        if !stale {
          answers := answers + [Answer(key, mtime, state.document, false)];
          return;
        }
      }
      pending := pending[sent := Sent(uri, mtime, known, state.resultId)];
      sent := sent + 1;
    }

    method TypedList(entries: seq<Entry<D>>) returns (items: seq<D>)
      ensures items == Typed(entries)
    {
      items := [];
      for i := 0 to |entries|
        invariant items == Typed(entries[..i])
      {
        if entries[i].Dictionary? {
          items := items + [entries[i].diagnostic];
        }
        assert entries[..i + 1][..i] == entries[..i];
      }
      assert entries[..|entries|] == entries;
    }

    method NormalizeReport(report: Report<D>) returns (items: seq<D>, resultId: Option<string>)
      ensures (items, resultId) == Normalized(cache.keyOf, View(), report)
    {
      match report
      case Unchanged(uri, id) =>
        items, resultId := Caches.StateOf(cache.View(), cache.keyOf(uri)).document, id;
      case Full(entries, id) =>
        items := TypedList(entries);
        resultId := id;
      case Listed(entries) =>
        items := TypedList(entries);
        resultId := None;
      case _ =>
        items, resultId := [], None;
    }

    /** The rest of a request, once the report is there or the request has failed. */
    method EndRequest(r: nat, report: Report<D>)
      modifies this, cache
      ensures View() == Step(cache.keyOf, old(View()), Reply(r, report))
    {
      if r !in pending {
        return;
      }
      var request := pending[r];
      var key := cache.keyOf(request.uri);
      pending := pending - {r};
      if report.Failure? {
        answers := answers + [Answer(key, request.mtime, Caches.StateOf(cache.View(), key).document, true)];
        return;
      }
      var items, resultId := NormalizeReport(report);
      cache.UpdateDocumentDiagnostics(request.uri, items, resultId);
      if request.known {
        cache.SetMtime(request.uri, request.mtime);
      }
      answers := answers + [Answer(key, request.mtime, items, false)];
    }
  }

  // ----- the server and the premises

  /** What a server computes: the diagnostics of a file at an mtime, and those a result id stands for. */
  datatype Server<!D> = Server(at: (string, real) -> seq<D>, of: (string, string) -> seq<D>)

  /** A report says what the server computes; it carries a result id once the file has one, and an
      unchanged report carries the URI. */
  predicate Honest<D(==)>(keyOf: string -> string, server: Server<D>, sent: Sent, report: Report<D>) {
    var key := keyOf(sent.uri);
    var now := server.at(key, sent.mtime);
    match report
    case Full(items, None) => Typed(items) == now && sent.previous.None?
    case Full(items, Some(id)) => Typed(items) == now == server.of(key, id)
    case Unchanged(uri, id) =>
      sent.previous.Some? && server.of(key, sent.previous.value) == now && keyOf(uri) == key &&
      (id.Some? ==> server.of(key, id.value) == now)
    case Listed(items) => Typed(items) == now && sent.previous.None?
    case Missing => now == [] && sent.previous.None?
    case Failure => true
  }

  /** A write that leaves document diagnostics and mtimes alone. */
  predicate Harmless<D>(w: Caches.Write<D>) {
    w.WorkspaceWrite? || w.Increment? || w.VersionWrite? || (w.OpenWrite? && w.recorded.None?)
  }

  /** The mtime of the last request of a file. */
  function Latest<D>(keyOf: string -> string, events: seq<Event<D>>, key: string): real {
    if events == [] then 0.0
    else if events[|events| - 1].Ask? && keyOf(events[|events| - 1].uri) == key then events[|events| - 1].mtime
    else Latest(keyOf, events[..|events| - 1], key)
  }

  predicate NoneUnderWay<D>(keyOf: string -> string, s: State<D>, key: string) {
    forall r :: r in s.pending ==> keyOf(s.pending[r].uri) != key
  }

  predicate Expected<D(==)>(keyOf: string -> string, server: Server<D>, before: seq<Event<D>>, e: Event<D>) {
    match e
    case Ask(uri, mtime, known) =>
      var s := Run(keyOf, before);
      mtime >= Latest(keyOf, before, keyOf(uri)) &&
      (Hit(s, keyOf(uri), mtime, known) || NoneUnderWay(keyOf, s, keyOf(uri)))
    case Reply(r, report) =>
      var s := Run(keyOf, before);
      r in s.pending ==> Honest(keyOf, server, s.pending[r], report)
    case Background(write) => Harmless(write)
  }

  /** Mtimes never go back, the server is asked for one file at a time, reports are honest and nothing else
      writes document diagnostics. */
  predicate WellBehaved<D(==)>(keyOf: string -> string, server: Server<D>, events: seq<Event<D>>) {
    forall n :: 0 <= n < |events| ==> Expected(keyOf, server, events[..n], events[n])
  }

  // ----- the invariant

  /** The cached list is the server's for the cached result id, and for an mtime in this range. */
  ghost predicate FreshAt<D>(server: Server<D>, s: State<D>, key: string, m: real, latest: real) {
    Mtime(s, key) <= m <= latest && Document(s, key) == server.at(key, m) &&
    ResultId(s, key).Some? && Document(s, key) == server.of(key, ResultId(s, key).value)
  }

  ghost predicate FileInv<D>(keyOf: string -> string, server: Server<D>, s: State<D>, key: string, latest: real) {
    0.0 <= Mtime(s, key) <= latest &&
    (ResultId(s, key).Some? ==> exists m :: FreshAt(server, s, key, m, latest)) &&
    (forall r :: r in s.pending && keyOf(s.pending[r].uri) == key ==>
      s.pending[r].previous == ResultId(s, key) && Mtime(s, key) <= s.pending[r].mtime <= latest)
  }

  predicate OneForEachFile<D>(keyOf: string -> string, s: State<D>) {
    (forall r :: r in s.pending ==> r < s.sent) &&
    (forall r, t :: r in s.pending && t in s.pending && keyOf(s.pending[r].uri) == keyOf(s.pending[t].uri) ==> r == t)
  }

  ghost predicate Right<D>(server: Server<D>, a: Answer<D>) {
    !a.failed ==> a.items == server.at(a.key, a.mtime)
  }

  lemma AskKeepsFile<D>(keyOf: string -> string, server: Server<D>, s: State<D>, latest: real, key: string,
                        uri: string, mtime: real, known: bool)
    requires FileInv(keyOf, server, s, key, latest) && (keyOf(uri) == key ==> mtime >= latest)
    ensures FileInv(keyOf, server, AskStep(keyOf, s, uri, mtime, known), key,
                    if keyOf(uri) == key then mtime else latest)
  {
    var after := AskStep(keyOf, s, uri, mtime, known);
    if ResultId(s, key).Some? {
      var m :| FreshAt(server, s, key, m, latest);
      assert FreshAt(server, after, key, m, if keyOf(uri) == key then mtime else latest);
    }
  }

  lemma HitIsRight<D>(keyOf: string -> string, server: Server<D>, s: State<D>, latest: real, uri: string,
                      mtime: real)
    requires FileInv(keyOf, server, s, keyOf(uri), latest) && mtime >= latest
    requires Hit(s, keyOf(uri), mtime, true)
    ensures Document(s, keyOf(uri)) == server.at(keyOf(uri), mtime)
  {
    var m :| FreshAt(server, s, keyOf(uri), m, latest);
    assert keyOf(uri) in s.cache.states;
    assert m == mtime;
  }

  lemma RecordedStates<D>(keyOf: string -> string, s: State<D>, key: string, sent: Sent,
                          normalized: (seq<D>, Option<string>))
    requires keyOf(sent.uri) == key
    ensures var after := s.(cache := Recorded(keyOf, s.cache, sent, normalized));
            Document(after, key) == normalized.0 &&
            ResultId(after, key) == (if normalized.1.None? then ResultId(s, key) else normalized.1) &&
            Mtime(after, key) == (if sent.known then sent.mtime else Mtime(s, key)) &&
            forall k :: k != key ==> Caches.StateOf(after.cache, k) == Caches.StateOf(s.cache, k)
  {
  }

  lemma ReportIsRight<D>(keyOf: string -> string, server: Server<D>, s: State<D>, latest: real, r: nat,
                         report: Report<D>)
    requires r in s.pending && FileInv(keyOf, server, s, keyOf(s.pending[r].uri), latest)
    requires Honest(keyOf, server, s.pending[r], report) && !report.Failure?
    ensures var key, normalized := keyOf(s.pending[r].uri), Normalized(keyOf, s, report);
            var now := server.at(key, s.pending[r].mtime);
            normalized.0 == now &&
            (normalized.1.Some? ==> now == server.of(key, normalized.1.value)) &&
            (normalized.1.None? && ResultId(s, key).Some? ==> now == server.of(key, ResultId(s, key).value))
  {
    var key := keyOf(s.pending[r].uri);
    if ResultId(s, key).Some? {
      var m :| FreshAt(server, s, key, m, latest);
    }
  }

  lemma ReplyKeepsFile<D>(keyOf: string -> string, server: Server<D>, s: State<D>, latest: real, r: nat,
                          report: Report<D>)
    requires r in s.pending && FileInv(keyOf, server, s, keyOf(s.pending[r].uri), latest)
    requires OneForEachFile(keyOf, s) && Honest(keyOf, server, s.pending[r], report)
    ensures FileInv(keyOf, server, ReplyStep(keyOf, s, r, report), keyOf(s.pending[r].uri), latest)
  {
    var sent, after := s.pending[r], ReplyStep(keyOf, s, r, report);
    var key := keyOf(sent.uri);
    if report.Failure? {
      if ResultId(s, key).Some? {
        var m :| FreshAt(server, s, key, m, latest);
        assert FreshAt(server, after, key, m, latest);
      }
    } else {
      ReportIsRight(keyOf, server, s, latest, r, report);
      RecordedStates(keyOf, s, key, sent, Normalized(keyOf, s, report));
      if ResultId(after, key).Some? {
        assert FreshAt(server, after, key, sent.mtime, latest);
      }
    }
  }

  lemma OtherFileKeeps<D>(keyOf: string -> string, server: Server<D>, s: State<D>, after: State<D>, latest: real,
                          key: string)
    requires FileInv(keyOf, server, s, key, latest)
    requires Document(after, key) == Document(s, key) && ResultId(after, key) == ResultId(s, key)
    requires Mtime(after, key) == Mtime(s, key)
    requires forall r :: r in after.pending ==> r in s.pending && after.pending[r] == s.pending[r]
    ensures FileInv(keyOf, server, after, key, latest)
  {
    if ResultId(s, key).Some? {
      var m :| FreshAt(server, s, key, m, latest);
      assert FreshAt(server, after, key, m, latest);
    }
  }

  lemma StepKeepsFile<D>(keyOf: string -> string, server: Server<D>, before: seq<Event<D>>, e: Event<D>, key: string)
    requires Expected(keyOf, server, before, e) && OneForEachFile(keyOf, Run(keyOf, before))
    requires FileInv(keyOf, server, Run(keyOf, before), key, Latest(keyOf, before, key))
    ensures var s := Run(keyOf, before);
            FileInv(keyOf, server, Step(keyOf, s, e), key,
                    if e.Ask? && keyOf(e.uri) == key then e.mtime else Latest(keyOf, before, key))
  {
    var s, latest := Run(keyOf, before), Latest(keyOf, before, key);
    match e
    case Ask(uri, mtime, known) => AskKeepsFile(keyOf, server, s, latest, key, uri, mtime, known);
    case Reply(r, report) =>
      if r in s.pending {
        if keyOf(s.pending[r].uri) == key {
          ReplyKeepsFile(keyOf, server, s, latest, r, report);
        } else {
          if !report.Failure? {
            RecordedStates(keyOf, s, keyOf(s.pending[r].uri), s.pending[r], Normalized(keyOf, s, report));
          }
          OtherFileKeeps(keyOf, server, s, Step(keyOf, s, e), latest, key);
        }
      }
    case Background(write) => OtherFileKeeps(keyOf, server, s, Step(keyOf, s, e), latest, key);
  }

  lemma StepKeepsOneForEachFile<D>(keyOf: string -> string, server: Server<D>, before: seq<Event<D>>, e: Event<D>)
    requires Expected(keyOf, server, before, e) && OneForEachFile(keyOf, Run(keyOf, before))
    ensures OneForEachFile(keyOf, Step(keyOf, Run(keyOf, before), e))
  {
  }

  /** What one more event answers. */
  lemma StepAnswersRight<D>(keyOf: string -> string, server: Server<D>, before: seq<Event<D>>, e: Event<D>)
    requires Expected(keyOf, server, before, e)
    requires forall key :: FileInv(keyOf, server, Run(keyOf, before), key, Latest(keyOf, before, key))
    ensures var s := Run(keyOf, before); var after := Step(keyOf, s, e);
            after.answers == s.answers ||
            (|after.answers| == |s.answers| + 1 && after.answers == s.answers + [after.answers[|s.answers|]] &&
             Right(server, after.answers[|s.answers|]))
  {
    var s := Run(keyOf, before);
    match e
    case Ask(uri, mtime, known) =>
      assert FileInv(keyOf, server, s, keyOf(uri), Latest(keyOf, before, keyOf(uri)));
      if Hit(s, keyOf(uri), mtime, known) {
        HitIsRight(keyOf, server, s, Latest(keyOf, before, keyOf(uri)), uri, mtime);
      }
    case Reply(r, report) =>
      if r in s.pending && !report.Failure? {
        var key := keyOf(s.pending[r].uri);
        assert FileInv(keyOf, server, s, key, Latest(keyOf, before, key));
        ReportIsRight(keyOf, server, s, Latest(keyOf, before, key), r, report);
      }
    case Background(_) =>
  }

  ghost predicate AnswersRight<D>(server: Server<D>, answers: seq<Answer<D>>) {
    forall i :: 0 <= i < |answers| ==> Right(server, answers[i])
  }

  lemma LatestAppend<D>(keyOf: string -> string, events: seq<Event<D>>, key: string)
    requires events != []
    ensures var init, e := events[..|events| - 1], events[|events| - 1];
            Latest(keyOf, events, key) ==
            if e.Ask? && keyOf(e.uri) == key then e.mtime else Latest(keyOf, init, key)
  {
  }

  lemma WellBehavedPrefix<D>(keyOf: string -> string, server: Server<D>, events: seq<Event<D>>)
    requires WellBehaved(keyOf, server, events) && events != []
    ensures WellBehaved(keyOf, server, events[..|events| - 1])
    ensures Expected(keyOf, server, events[..|events| - 1], events[|events| - 1])
  {
    var init := events[..|events| - 1];
    forall n | 0 <= n < |init| ensures Expected(keyOf, server, init[..n], init[n]) {
      assert init[..n] == events[..n];
    }
  }

  /** In every well-behaved run each request that does not fail is answered with what the server
      computes for the file at the mtime of the request, whether or not the server is asked. */
  lemma {:induction false} CachedAnswersAreRight<D>(keyOf: string -> string, server: Server<D>, events: seq<Event<D>>)
    requires WellBehaved(keyOf, server, events)
    ensures AnswersRight(server, Run(keyOf, events).answers)
    ensures OneForEachFile(keyOf, Run(keyOf, events))
    ensures forall key :: FileInv(keyOf, server, Run(keyOf, events), key, Latest(keyOf, events, key))
  {
    if events != [] {
      var init, e := events[..|events| - 1], events[|events| - 1];
      WellBehavedPrefix(keyOf, server, events);
      CachedAnswersAreRight(keyOf, server, init);
      forall key ensures FileInv(keyOf, server, Run(keyOf, events), key, Latest(keyOf, events, key)) {
        StepKeepsFile(keyOf, server, init, e, key);
        LatestAppend(keyOf, events, key);
      }
      StepKeepsOneForEachFile(keyOf, server, init, e);
      StepAnswersRight(keyOf, server, init, e);
    }
  }

  // ----- failed requests

  /** The items of the last answer for a file. */
  function LastItems<D>(answers: seq<Answer<D>>, key: string): seq<D> {
    if answers == [] then []
    else if answers[|answers| - 1].key == key then answers[|answers| - 1].items
    else LastItems(answers[..|answers| - 1], key)
  }

  predicate OnlyHarmless<D>(events: seq<Event<D>>) {
    forall i :: 0 <= i < |events| && events[i].Background? ==> Harmless(events[i].write)
  }

  lemma LastItemsAppend<D>(answers: seq<Answer<D>>, a: Answer<D>, key: string)
    ensures LastItems(answers + [a], key) == if a.key == key then a.items else LastItems(answers, key)
  {
    assert (answers + [a])[..|answers|] == answers;
  }

  lemma ReplyHoldsLastAnswer<D>(keyOf: string -> string, s: State<D>, r: nat, report: Report<D>, key: string)
    requires r in s.pending && Document(s, key) == LastItems(s.answers, key)
    ensures var after := ReplyStep(keyOf, s, r, report); Document(after, key) == LastItems(after.answers, key)
  {
    var sent := s.pending[r];
    var file := keyOf(sent.uri);
    if report.Failure? {
      LastItemsAppend(s.answers, Answer(file, sent.mtime, Document(s, file), true), key);
    } else {
      var normalized := Normalized(keyOf, s, report);
      LastItemsAppend(s.answers, Answer(file, sent.mtime, normalized.0, false), key);
      RecordedDocument(keyOf, s, sent, normalized, key);
    }
  }

  lemma RecordedDocument<D>(keyOf: string -> string, s: State<D>, sent: Sent,
                            normalized: (seq<D>, Option<string>), key: string)
    ensures Caches.StateOf(Recorded(keyOf, s.cache, sent, normalized), key).document ==
            if keyOf(sent.uri) == key then normalized.0 else Document(s, key)
  {
  }

  lemma StepHoldsLastAnswer<D>(keyOf: string -> string, s: State<D>, e: Event<D>, key: string)
    requires e.Background? ==> Harmless(e.write)
    requires Document(s, key) == LastItems(s.answers, key)
    ensures var after := Step(keyOf, s, e); Document(after, key) == LastItems(after.answers, key)
  {
    match e
    case Ask(uri, mtime, known) =>
      LastItemsAppend(s.answers, Answer(keyOf(uri), mtime, Document(s, keyOf(uri)), false), key);
    case Reply(r, report) =>
      if r in s.pending {
        ReplyHoldsLastAnswer(keyOf, s, r, report, key);
      }
    case Background(_) =>
  }

  /** Whatever the server reports, the cache holds the list of the last answer for each file, so a failed
      request repeats it. */
  lemma {:induction false} CacheHoldsLastAnswer<D>(keyOf: string -> string, events: seq<Event<D>>, key: string)
    requires OnlyHarmless(events)
    ensures var s := Run(keyOf, events); Document(s, key) == LastItems(s.answers, key)
  {
    if events != [] {
      var init, e := events[..|events| - 1], events[|events| - 1];
      assert events == init + [e];
      CacheHoldsLastAnswer(keyOf, init, key);
      StepHoldsLastAnswer(keyOf, Run(keyOf, init), e, key);
    }
  }

  lemma FailureRepeatsLastAnswer<D>(keyOf: string -> string, events: seq<Event<D>>, r: nat)
    requires OnlyHarmless(events) && r in Run(keyOf, events).pending
    ensures var s := Run(keyOf, events); var after := Step(keyOf, s, Reply(r, Failure));
            var key := keyOf(s.pending[r].uri);
            after.cache == s.cache &&
            after.answers == s.answers + [Answer(key, s.pending[r].mtime, LastItems(s.answers, key), true)]
  {
    CacheHoldsLastAnswer(keyOf, events, keyOf(Run(keyOf, events).pending[r].uri));
  }

  // ----- when the server is asked, and with what

  /** The result id a report carries. */
  function ReportId<D>(report: Report<D>): Option<string> {
    match report
    case Full(_, id) => id
    case Unchanged(_, id) => id
    case _ => None
  }

  /** Whether an event is a report, and not a failure, on a request for this file. */
  predicate ReportsOn<D>(keyOf: string -> string, s: State<D>, e: Event<D>, key: string) {
    e.Reply? && e.request in s.pending && !e.report.Failure? && keyOf(s.pending[e.request].uri) == key
  }

  /** The last result id given for a file. */
  function LastId<D>(keyOf: string -> string, events: seq<Event<D>>, key: string): Option<string> {
    if events == [] then None
    else
      var init, e := events[..|events| - 1], events[|events| - 1];
      if ReportsOn(keyOf, Run(keyOf, init), e, key) && ReportId(e.report).Some? then ReportId(e.report)
      else LastId(keyOf, init, key)
  }

  /** The mtime of the last request on a file that was known and got a report. */
  function LastKnownMtime<D>(keyOf: string -> string, events: seq<Event<D>>, key: string): real {
    if events == [] then 0.0
    else
      var init, e := events[..|events| - 1], events[|events| - 1];
      var s := Run(keyOf, init);
      if ReportsOn(keyOf, s, e, key) && s.pending[e.request].known then s.pending[e.request].mtime
      else LastKnownMtime(keyOf, init, key)
  }

  lemma ReportRecords<D>(keyOf: string -> string, s: State<D>, r: nat, report: Report<D>, key: string)
    requires r in s.pending && !report.Failure?
    ensures var sent, after := s.pending[r], Step(keyOf, s, Reply(r, report));
            var mine := keyOf(sent.uri) == key;
            ResultId(after, key) == (if mine && ReportId(report).Some? then ReportId(report) else ResultId(s, key)) &&
            Mtime(after, key) == (if mine && sent.known then sent.mtime else Mtime(s, key))
  {
    RecordedStates(keyOf, s, keyOf(s.pending[r].uri), s.pending[r], Normalized(keyOf, s, report));
  }

  /** The cache holds the last result id given for each file and the last known mtime it was reported at. */
  lemma {:induction false} CacheHoldsLastReport<D>(keyOf: string -> string, events: seq<Event<D>>, key: string)
    requires OnlyHarmless(events)
    ensures var s := Run(keyOf, events);
            ResultId(s, key) == LastId(keyOf, events, key) && Mtime(s, key) == LastKnownMtime(keyOf, events, key)
  {
    if events != [] {
      var init, e := events[..|events| - 1], events[|events| - 1];
      assert events == init + [e];
      CacheHoldsLastReport(keyOf, init, key);
      if e.Reply? && e.request in Run(keyOf, init).pending && !e.report.Failure? {
        ReportRecords(keyOf, Run(keyOf, init), e.request, e.report, key);
      }
    }
  }

  /** A request is answered from the cache exactly if its mtime is known and not newer than the one the file was
      last reported at, and a result id was given; then it gets the list of the last answer. Any other request is
      sent, with the last result id given, by whatever kind of report. */
  lemma AskedExactly<D>(keyOf: string -> string, events: seq<Event<D>>, uri: string, mtime: real, known: bool)
    requires OnlyHarmless(events)
    ensures var s, key := Run(keyOf, events), keyOf(uri);
            var after, id := Step(keyOf, s, Ask(uri, mtime, known)), LastId(keyOf, events, key);
            after.cache == s.cache &&
            if known && id.Some? && mtime <= LastKnownMtime(keyOf, events, key)
            then after.answers == s.answers + [Answer(key, mtime, LastItems(s.answers, key), false)] &&
                 after.pending == s.pending && after.sent == s.sent
            else after.answers == s.answers && after.sent == s.sent + 1 &&
                 after.pending == s.pending[s.sent := Sent(uri, mtime, known, id)]
  {
    CacheHoldsLastReport(keyOf, events, keyOf(uri));
    CacheHoldsLastAnswer(keyOf, events, keyOf(uri));
  }

  /** Dictionaries at increasing places, which are all the places of dictionaries. */
  predicate Picks<D(==)>(items: seq<Entry<D>>, picked: seq<D>, at: seq<nat>) {
    |at| == |picked| &&
    (forall j :: 0 <= j < |at| ==> at[j] < |items| && items[at[j]] == Dictionary(picked[j])) &&
    (forall j, k :: 0 <= j < k < |at| ==> at[j] < at[k]) &&
    (forall i :: 0 <= i < |items| && items[i].Dictionary? ==> i in at)
  }

  lemma PickedLast<D>(items: seq<Entry<D>>, e: Entry<D>, picked: seq<D>, at: seq<nat>)
    requires Picks(items, picked, at)
    ensures e.Other? ==> Picks(items + [e], picked, at)
    ensures e.Dictionary? ==> Picks(items + [e], picked + [e.diagnostic], at + [|items|])
  {
    if e.Dictionary? {
      var longer := at + [|items|];
      assert longer[|at|] == |items|;
    }
  }

  /** The list of a report is its entries that are dictionaries, in order. */
  lemma {:induction false} TypedArePicked<D>(items: seq<Entry<D>>) returns (at: seq<nat>)
    ensures Picks(items, Typed(items), at)
    decreases |items|
  {
    at := [];
    if items != [] {
      var init, last := items[..|items| - 1], items[|items| - 1];
      at := TypedArePicked(init);
      PickedLast(init, last, Typed(init), at);
      assert items == init + [last];
      at := if last.Dictionary? then at + [|init|] else at;
    }
  }

  /** What a report is answered with: its own list, or the last answer of the file an unchanged report names, or
      of the file itself if the request failed. */
  lemma RepliedExactly<D>(keyOf: string -> string, events: seq<Event<D>>, r: nat, report: Report<D>)
    requires OnlyHarmless(events) && r in Run(keyOf, events).pending
    ensures var s := Run(keyOf, events);
            var sent, after := s.pending[r], Step(keyOf, s, Reply(r, report));
            var items := match report
                         case Full(items, _) => Typed(items)
                         case Listed(items) => Typed(items)
                         case Missing => []
                         case Unchanged(uri, _) => LastItems(s.answers, keyOf(uri))
                         case Failure => LastItems(s.answers, keyOf(sent.uri));
            after.pending == s.pending - {r} && (report.Failure? ==> after.cache == s.cache) &&
            after.answers == s.answers + [Answer(keyOf(sent.uri), sent.mtime, items, report.Failure?)]
  {
    CacheHoldsLastAnswer(keyOf, events, keyOf(Run(keyOf, events).pending[r].uri));
    if report.Unchanged? {
      CacheHoldsLastAnswer(keyOf, events, keyOf(report.uri));
    }
  }

  // ----- what a run tells about the server

  /** The run has answered the file with this list at this mtime. */
  ghost predicate AnsweredWith<D>(answers: seq<Answer<D>>, key: string, m: real, items: seq<D>) {
    exists i :: 0 <= i < |answers| && answers[i] == Answer(key, m, items, false)
  }

  ghost predicate AnsweredAt<D>(answers: seq<Answer<D>>, key: string, m: real) {
    exists i :: 0 <= i < |answers| && answers[i].key == key && answers[i].mtime == m && !answers[i].failed
  }

  /** The list is what every server computes to which the run is honest. */
  ghost predicate ForEveryServer<D(!new)>(keyOf: string -> string, events: seq<Event<D>>, key: string, m: real,
                                          items: seq<D>)
  {
    forall server: Server<D> :: WellBehaved(keyOf, server, events) ==> server.at(key, m) == items
  }

  lemma {:induction false} AnswersOnlyGrow<D>(keyOf: string -> string, events: seq<Event<D>>, n: nat)
    requires n <= |events|
    ensures Run(keyOf, events[..n]).answers <= Run(keyOf, events).answers
    decreases |events|
  {
    if n == |events| {
      assert events[..n] == events;
    } else {
      var init := events[..|events| - 1];
      assert init[..n] == events[..n];
      AnswersOnlyGrow(keyOf, init, n);
      assert Run(keyOf, init).answers <= Run(keyOf, events).answers;
    }
  }

  /** A report that is not a failure answers its file at the mtime of its request. */
  lemma ReportAnswers<D>(keyOf: string -> string, events: seq<Event<D>>, n: nat)
    requires n < |events| && events[n].Reply? && !events[n].report.Failure?
    requires events[n].request in Run(keyOf, events[..n]).pending
    ensures var sent := Run(keyOf, events[..n]).pending[events[n].request];
            AnsweredAt(Run(keyOf, events).answers, keyOf(sent.uri), sent.mtime)
  {
    var s, next := Run(keyOf, events[..n]), Run(keyOf, events[..n + 1]);
    assert events[..n + 1][..n] == events[..n];
    AnswersOnlyGrow(keyOf, events, n + 1);
    var i := |s.answers|;
    assert Run(keyOf, events).answers[i] == next.answers[i];
  }

  /** A server that differs only where the run never got an answer. */
  lemma OtherServerBehaves<D>(keyOf: string -> string, server: Server<D>, other: Server<D>, events: seq<Event<D>>,
                              key: string, m: real)
    requires WellBehaved(keyOf, server, events) && !AnsweredAt(Run(keyOf, events).answers, key, m)
    requires other.of == server.of && forall k, x :: (k, x) != (key, m) ==> other.at(k, x) == server.at(k, x)
    ensures WellBehaved(keyOf, other, events)
  {
    forall n | 0 <= n < |events| ensures Expected(keyOf, other, events[..n], events[n]) {
      assert Expected(keyOf, server, events[..n], events[n]);
      var e, s := events[n], Run(keyOf, events[..n]);
      if e.Reply? && e.request in s.pending && !e.report.Failure? {
        ReportAnswers(keyOf, events, n);
      }
    }
  }

  /** A run determines what the server computes for a file at an mtime exactly if it answered the file at that
      mtime. */
  lemma ServerIsKnownExactly<D(!new)>(keyOf: string -> string, server: Server<D>, events: seq<Event<D>>, key: string,
                                      m: real, items: seq<D>, d: D)
    requires WellBehaved(keyOf, server, events)
    ensures ForEveryServer(keyOf, events, key, m, items) <==> AnsweredWith(Run(keyOf, events).answers, key, m, items)
  {
    var answers := Run(keyOf, events).answers;
    if AnsweredWith(answers, key, m, items) {
      forall sv: Server<D> | WellBehaved(keyOf, sv, events) ensures sv.at(key, m) == items {
        CachedAnswersAreRight(keyOf, sv, events);
        var i :| 0 <= i < |answers| && answers[i] == Answer(key, m, items, false);
        assert Right(sv, answers[i]);
      }
    } else if AnsweredAt(answers, key, m) {
      CachedAnswersAreRight(keyOf, server, events);
      var i :| 0 <= i < |answers| && answers[i].key == key && answers[i].mtime == m && !answers[i].failed;
      assert Right(server, answers[i]);
      assert server.at(key, m) != items;
    } else {
      var other := Server((k, x) => if (k, x) == (key, m) then items + [d] else server.at(k, x), server.of);
      OtherServerBehaves(keyOf, server, other, events, key, m);
      assert other.at(key, m) != items;
    }
  }

  /** An answer from the cache is right, whatever the server, exactly if the file was already answered with
      the same list at the same mtime. So it can be wrong when an mtime goes back, as after a rollback. */
  lemma HitIsRightExactly<D(!new)>(keyOf: string -> string, server: Server<D>, events: seq<Event<D>>, uri: string,
                                   m: real, d: D)
    requires WellBehaved(keyOf, server, events) && Hit(Run(keyOf, events), keyOf(uri), m, true)
    ensures var s := Run(keyOf, events); var list := Document(s, keyOf(uri));
            Step(keyOf, s, Ask(uri, m, true)).answers == s.answers + [Answer(keyOf(uri), m, list, false)] &&
            (ForEveryServer(keyOf, events, keyOf(uri), m, list) <==> AnsweredWith(s.answers, keyOf(uri), m, list))
  {
    ServerIsKnownExactly(keyOf, server, events, keyOf(uri), m, Document(Run(keyOf, events), keyOf(uri)), d);
  }

  // ----- without a premise

  /** An unchanged report without a URI, the only kind the protocol defines, is answered with the list cached
      for the empty URI, which is empty unless that URI itself was asked for. This is right exactly when the
      file has the same list cached. The list is cached for the file with the mtime of the request, and every
      request up to that mtime gets it. */
  lemma UnchangedWithoutUri<D>(keyOf: string -> string, server: Server<D>, events: seq<Event<D>>, r: nat,
                               id: Option<string>)
    requires WellBehaved(keyOf, server, events) && r in Run(keyOf, events).pending
    requires var sent := Run(keyOf, events).pending[r]; Honest(keyOf, server, sent, Unchanged(sent.uri, id))
    ensures var s := Run(keyOf, events);
            var sent, list := s.pending[r], Document(s, keyOf(""));
            var after, key := Step(keyOf, s, Reply(r, Unchanged("", id))), keyOf(sent.uri);
            ((forall a :: a in s.answers ==> a.key != keyOf("")) ==> list == []) &&
            after.answers == s.answers + [Answer(key, sent.mtime, list, false)] &&
            (Right(server, after.answers[|s.answers|]) <==> Document(s, key) == list) &&
            (sent.known ==> forall m :: m <= sent.mtime ==>
              Step(keyOf, after, Ask(sent.uri, m, true)).answers == after.answers + [Answer(key, m, list, false)])
  {
    var s := Run(keyOf, events);
    var sent := s.pending[r];
    var key := keyOf(sent.uri);
    CacheHoldsLastAnswer(keyOf, events, keyOf(""));
    if forall a :: a in s.answers ==> a.key != keyOf("") {
      NoAnswersNoItems(s.answers, keyOf(""));
    }
    CachedAnswersAreRight(keyOf, server, events);
    assert FileInv(keyOf, server, s, key, Latest(keyOf, events, key));
    var m :| FreshAt(server, s, key, m, Latest(keyOf, events, key));
    RecordedStates(keyOf, s, key, sent, (Document(s, keyOf("")), id));
  }

  lemma {:induction false} NoAnswersNoItems<D>(answers: seq<Answer<D>>, key: string)
    requires forall a :: a in answers ==> a.key != key
    ensures LastItems(answers, key) == []
  {
    if answers != [] {
      NoAnswersNoItems(answers[..|answers| - 1], key);
    }
  }

  /** Why one request at a time is a premise: whenever a request is under way, another one for the same file
      (by an alias, say) can be sent and answered first. All reports are honest, and yet the unchanged report
      that comes late is answered with the list of the newer mtime. */
  lemma LateUnchangedServesNewerList<D>(keyOf: string -> string, server: Server<D>, events: seq<Event<D>>, r: nat,
                                        alias: string, newer: real, items: seq<Entry<D>>, id: string)
    requires WellBehaved(keyOf, server, events) && r in Run(keyOf, events).pending
    requires var s := Run(keyOf, events); var sent := s.pending[r]; var key := keyOf(sent.uri);
             Honest(keyOf, server, sent, Unchanged(sent.uri, sent.previous)) &&
             keyOf(alias) == key && newer >= Latest(keyOf, events, key) && !Hit(s, key, newer, true) &&
             Typed(items) == server.at(key, newer) == server.of(key, id)
    ensures var s := Run(keyOf, events);
            var sent := s.pending[r];
            var key := keyOf(sent.uri);
            var full, late := Full(items, Some(id)), Unchanged(sent.uri, sent.previous);
            var asked := Step(keyOf, s, Ask(alias, newer, true));
            var overtaken := Step(keyOf, asked, Reply(s.sent, full));
            s.sent in asked.pending && Honest(keyOf, server, asked.pending[s.sent], full) &&
            r in overtaken.pending && Honest(keyOf, server, overtaken.pending[r], late) &&
            Step(keyOf, overtaken, Reply(r, late)).answers ==
              s.answers + [Answer(key, newer, server.at(key, newer), false),
                           Answer(key, sent.mtime, server.at(key, newer), false)]
  {
    CachedAnswersAreRight(keyOf, server, events);
    var s := Run(keyOf, events);
    var asked := Step(keyOf, s, Ask(alias, newer, true));
    var key := keyOf(alias);
    RecordedStates(keyOf, asked, key, asked.pending[s.sent], (server.at(key, newer), Some(id)));
  }

  /** When a file's mtime goes back, as after a rollback that restores it, the newer list is served. */
  lemma OlderMtimeServesNewerList<D>(keyOf: string -> string, server: Server<D>, s: State<D>, uri: string,
                                     newer: real, older: real, items: seq<Entry<D>>, id: string)
    requires !Hit(s, keyOf(uri), newer, true) && older <= newer && Typed(items) == server.at(keyOf(uri), newer)
    ensures var key := keyOf(uri);
            var asked := Step(keyOf, s, Ask(uri, newer, true));
            var replied := Step(keyOf, asked, Reply(s.sent, Full(items, Some(id))));
            var after := Step(keyOf, replied, Ask(uri, older, true));
            after.answers == replied.answers + [Answer(key, older, server.at(key, newer), false)] &&
            (server.at(key, older) != server.at(key, newer) ==> !Right(server, after.answers[|replied.answers|]))
  {
    var key := keyOf(uri);
    var asked := Step(keyOf, s, Ask(uri, newer, true));
    RecordedStates(keyOf, asked, key, asked.pending[s.sent], (server.at(key, newer), Some(id)));
  }

  /** Published diagnostics replace the list but not the result id, so they are served as if requested; they
      are right, whatever the server, exactly if the file was already answered with them at that mtime. */
  lemma PublishedListIsServed<D(!new)>(keyOf: string -> string, server: Server<D>, events: seq<Event<D>>, uri: string,
                                       items: seq<D>, m: real, d: D)
    requires WellBehaved(keyOf, server, events) && Hit(Run(keyOf, events), keyOf(uri), m, true)
    ensures var s := Run(keyOf, events);
            var published := Step(keyOf, s, Background(Caches.DocumentWrite(uri, items, None)));
            Step(keyOf, published, Ask(uri, m, true)).answers == s.answers + [Answer(keyOf(uri), m, items, false)] &&
            (ForEveryServer(keyOf, events, keyOf(uri), m, items) <==> AnsweredWith(s.answers, keyOf(uri), m, items))
  {
    ServerIsKnownExactly(keyOf, server, events, keyOf(uri), m, items, d);
  }
}

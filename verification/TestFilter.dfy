/** Whether a URI is a test file: an LRU cache of answers over a table of filters, one for each language. */
module TestFilter {
  import opened Wrappers
  import opened PatternEngine

  const CACHE_MAX := 4096

  datatype LanguageConfig = LanguageConfig(enabled: bool, patterns: PatternSet)

  datatype Config = Config(languages: map<string, LanguageConfig>, defaults: LanguageConfig,
                           fallback: Option<LanguageConfig>)

  /** A query; without a language the built-in default patterns apply. */
  datatype Key = Key(uri: string, language: Option<string>)

  datatype Cached = Cached(key: Key, isTest: bool)

  datatype Setup = Setup(lib: Library, builtIn: Config)

  /** The filter a configuration gives a language. */
  function CreateFilter(config: Option<Config>, language: string): PatternSet {
    match config
    case None => NO_PATTERNS
    case Some(c) =>
      if language in c.languages && c.languages[language].enabled then c.languages[language].patterns
      else if c.defaults.enabled then c.defaults.patterns
      else if c.fallback.Some? then c.fallback.value.patterns
      else NO_PATTERNS
  }

  /** The default pattern set has no include patterns. */
  function DefaultPatterns(setup: Setup): PatternSet {
    setup.builtIn.defaults.patterns.(includes := [])
  }

  function OrDefault(setup: Setup, patterns: PatternSet): PatternSet {
    if IsEmpty(patterns) then DefaultPatterns(setup) else patterns
  }

  /** The answer without any cache. */
  predicate Uncached(setup: Setup, config: Option<Config>, key: Key) {
    var patterns := match key.language
                    case None => DefaultPatterns(setup)
                    case Some(language) => OrDefault(setup, CreateFilter(config, language));
    IsTest(setup.lib, patterns, key.uri)
  }

  predicate HasPatterns(config: Config) {
    config.languages != map[] || !IsEmpty(config.defaults.patterns)
  }

  /** The configuration in force after a reload; None is a configuration that fails to load. */
  function Reloaded(setup: Setup, loaded: Option<Config>): Config {
    if loaded.Some? && HasPatterns(loaded.value) then loaded.value else setup.builtIn
  }

  function Position(cached: seq<Cached>, key: Key): (i: nat)
    ensures i <= |cached|
    ensures i < |cached| ==> cached[i].key == key
  {
    if cached == [] || cached[0].key == key then 0 else 1 + Position(cached[1..], key)
  }

  datatype Answer = Answer(key: Key, isTest: bool, config: Option<Config>)

  datatype Event =
    | Query(key: Key)
    | Reload(loaded: Option<Config>)
    | ClearFilters
    | ReloadLanguage(language: string)
    | Configure(config: Config)  // the registry is configured without a reload

  datatype State = State(config: Option<Config>, filters: map<string, PatternSet>, cached: seq<Cached>,
                         answers: seq<Answer>)

  function Initial(setup: Setup): State {
    State(Some(setup.builtIn), map[], [], [])
  }

  function FilterOf(s: State, language: string): PatternSet {
    if language in s.filters then s.filters[language] else CreateFilter(s.config, language)
  }

  predicate Computed(setup: Setup, s: State, key: Key) {
    var patterns := match key.language
                    case None => DefaultPatterns(setup)
                    case Some(language) => OrDefault(setup, FilterOf(s, language));
    IsTest(setup.lib, patterns, key.uri)
  }

  /** A language's filter is created when a query that is not empty first needs it. */
  function FiltersAfter(s: State, key: Key): map<string, PatternSet> {
    if key.uri == "" || key.language.None? then s.filters
    else s.filters[key.language.value := FilterOf(s, key.language.value)]
  }

  function Room(cached: seq<Cached>): seq<Cached> {
    if |cached| >= CACHE_MAX then cached[1..] else cached
  }

  function QueryStep(setup: Setup, s: State, key: Key): State {
    var i := Position(s.cached, key);
    if i < |s.cached| then
      s.(cached := s.cached[..i] + s.cached[i + 1..] + [s.cached[i]],
         answers := s.answers + [Answer(key, s.cached[i].isTest, s.config)])
    else
      var isTest := Computed(setup, s, key);
      State(s.config, FiltersAfter(s, key), Room(s.cached) + [Cached(key, isTest)],
            s.answers + [Answer(key, isTest, s.config)])
  }

  function Step(setup: Setup, s: State, e: Event): State {
    match e
    case Query(key) => QueryStep(setup, s, key)
    case Reload(loaded) => s.(config := Some(Reloaded(setup, loaded)), filters := map[], cached := [])
    case ClearFilters => s.(filters := map[])
    case ReloadLanguage(language) => s.(filters := s.filters - {language})
    case Configure(config) => s.(config := Some(config), filters := map[])
  }

  function Run(setup: Setup, events: seq<Event>): State {
    if events == [] then Initial(setup) else Step(setup, Run(setup, events[..|events| - 1]), events[|events| - 1])
  }

  // ----- the cache and the registry

  class LanguageFilterRegistry {
    var config: Option<Config>
    var filters: map<string, PatternSet>

    constructor ()
      ensures config == None && filters == map[]
    {
      config, filters := None, map[];
    }

    method Configure(newConfig: Config)
      modifies this
      ensures config == Some(newConfig) && filters == map[]
    {
      config := Some(newConfig);
      filters := map[];
    }

    method GetFilter(language: string) returns (patterns: PatternSet)
      modifies this`filters
      ensures patterns == if language in old(filters) then old(filters)[language] else CreateFilter(config, language)
      ensures filters == old(filters)[language := patterns]
    {
      if language in filters {
        return filters[language];
      }
      patterns := CreateFilter(config, language);
      filters := filters[language := patterns];
    }

    method Forget(language: string)
      modifies this`filters
      ensures filters == old(filters) - {language}
    {
      filters := filters - {language};
    }
  }

  class TestPaths {
    const setup: Setup
    const registry: LanguageFilterRegistry
    var cached: seq<Cached>  // least recently used first
    var answers: seq<Answer>  // what was returned

    ghost function View(): State
      reads this, registry
    {
      State(registry.config, registry.filters, cached, answers)
    }

    constructor (setup: Setup)
      ensures View() == Initial(setup) && this.setup == setup && fresh(registry)
    {
      this.setup := setup;
      registry := new LanguageFilterRegistry();
      cached, answers := [], [];
      new;
      registry.Configure(setup.builtIn);
    }

    method PatternsFor(language: Option<string>) returns (patterns: PatternSet)
      modifies registry`filters
      ensures patterns == match language
                          case None => DefaultPatterns(setup)
                          case Some(l) => OrDefault(setup, FilterOf(old(View()), l))
      ensures registry.filters == if language.None? then old(registry.filters)
                                  else old(registry.filters)[language.value := FilterOf(old(View()), language.value)]
    {
      if language.None? {
        return DefaultPatterns(setup);
      }
      patterns := registry.GetFilter(language.value);
      if IsEmpty(patterns) {
        patterns := DefaultPatterns(setup);
      }
    }

    method IsTestPathUncached(key: Key) returns (isTest: bool)
      modifies registry`filters
      ensures isTest == Computed(setup, old(View()), key)
      ensures registry.filters == FiltersAfter(old(View()), key)
    {
      if key.uri == "" {
        return false;
      }
      var patterns := PatternsFor(key.language);
      var result := Match(setup.lib, patterns, key.uri);
      return result.isMatch;
    }

    method IsTestPath(uri: string, language: Option<string>) returns (isTest: bool)
      modifies this, registry`filters
      ensures View() == Step(setup, old(View()), Query(Key(uri, language)))
      ensures answers == old(answers) + [Answer(Key(uri, language), isTest, registry.config)]
    {
      var key := Key(uri, language);
      var i := Position(cached, key);
      if i < |cached| {
        isTest := cached[i].isTest;
        cached := cached[..i] + cached[i + 1..] + [cached[i]];
      } else {
        isTest := IsTestPathUncached(key);
        if |cached| >= CACHE_MAX {
          cached := cached[1..];
        }
        cached := cached + [Cached(key, isTest)];
      }
      answers := answers + [Answer(key, isTest, registry.config)];
    }

    method ReloadConfig(loaded: Option<Config>)
      modifies this, registry
      ensures View() == Step(setup, old(View()), Reload(loaded))
    {
      cached := [];
      if loaded.Some? && HasPatterns(loaded.value) {
        registry.Configure(loaded.value);
      } else {
        registry.Configure(setup.builtIn);
      }
    }
  }

  // ----- coherence

  /** The filter table holds what the configuration in force gives. */
  predicate FiltersCurrent(s: State) {
    forall language :: language in s.filters ==> s.filters[language] == CreateFilter(s.config, language)
  }

  /** The configuration under which the cached answer to a query was computed: that in force when the query
      last missed the cache. */
  function ComputedUnder(setup: Setup, events: seq<Event>, key: Key): Option<Config> {
    if events == [] then None
    else
      var init, e := events[..|events| - 1], events[|events| - 1];
      var s := Run(setup, init);
      if e == Query(key) && Position(s.cached, key) == |s.cached| then s.config
      else ComputedUnder(setup, init, key)
  }

  predicate DistinctKeys(cached: seq<Cached>) {
    forall j, k :: 0 <= j < k < |cached| ==> cached[j].key != cached[k].key
  }

  /** Every cached answer is the uncached one under the configuration it was computed under. */
  predicate CachedAsComputed(setup: Setup, events: seq<Event>, cached: seq<Cached>) {
    forall k :: 0 <= k < |cached| ==>
      cached[k].isTest == Uncached(setup, ComputedUnder(setup, events, cached[k].key), cached[k].key)
  }

  lemma StepKeepsFiltersCurrent(setup: Setup, s: State, e: Event)
    requires FiltersCurrent(s)
    ensures FiltersCurrent(Step(setup, s, e))
  {
  }

  lemma ComputedIsUncached(setup: Setup, s: State, key: Key)
    requires FiltersCurrent(s)
    ensures Computed(setup, s, key) == Uncached(setup, s.config, key)
  {
  }

  lemma {:induction false} NotCached(cached: seq<Cached>, key: Key)
    requires forall k :: 0 <= k < |cached| ==> cached[k].key != key
    ensures Position(cached, key) == |cached|
  {
    if cached != [] {
      NotCached(cached[1..], key);
    }
  }

  lemma {:induction false} NotAt(cached: seq<Cached>, key: Key, k: nat)
    requires Position(cached, key) == |cached| && k < |cached|
    ensures cached[k].key != key
  {
    if k > 0 {
      NotAt(cached[1..], key, k - 1);
    }
  }

  /** Where entry k of the cache comes from after a hit at i. */
  function HitFrom(n: nat, i: nat, k: nat): nat {
    if k == n - 1 then i else if k < i then k else k + 1
  }

  lemma EntryAfterHit(setup: Setup, s: State, key: Key, k: nat)
    requires Position(s.cached, key) < |s.cached| && k < |s.cached|
    ensures var after, j := QueryStep(setup, s, key).cached, HitFrom(|s.cached|, Position(s.cached, key), k);
            |after| == |s.cached| && j < |s.cached| && after[k] == s.cached[j]
  {
  }

  lemma EntryAfterMiss(setup: Setup, s: State, key: Key, k: nat)
    requires Position(s.cached, key) == |s.cached| && k < |Room(s.cached)|
    ensures var after, d := QueryStep(setup, s, key).cached, |s.cached| - |Room(s.cached)|;
            |after| == |Room(s.cached)| + 1 && after[k] == s.cached[k + d] && after[k].key != key
  {
    NotAt(s.cached, key, k + (|s.cached| - |Room(s.cached)|));
  }

  lemma QueryKeepsDistinctKeys(setup: Setup, s: State, key: Key)
    requires DistinctKeys(s.cached) && |s.cached| <= CACHE_MAX
    ensures var after := QueryStep(setup, s, key).cached; DistinctKeys(after) && |after| <= CACHE_MAX
  {
    var after := QueryStep(setup, s, key).cached;
    forall j, k | 0 <= j < k < |after| ensures after[j].key != after[k].key {
      if Position(s.cached, key) < |s.cached| {
        EntryAfterHit(setup, s, key, j);
        EntryAfterHit(setup, s, key, k);
      } else {
        EntryAfterMiss(setup, s, key, j);
        if k < |after| - 1 {
          EntryAfterMiss(setup, s, key, k);
        }
      }
    }
  }

  lemma QueryKeepsComputed(setup: Setup, init: seq<Event>, key: Key)
    requires var s := Run(setup, init); FiltersCurrent(s) && CachedAsComputed(setup, init, s.cached)
    ensures CachedAsComputed(setup, init + [Query(key)], QueryStep(setup, Run(setup, init), key).cached)
  {
    var s, events := Run(setup, init), init + [Query(key)];
    var after := QueryStep(setup, s, key).cached;
    assert events[..|init|] == init;
    forall k | 0 <= k < |after|
      ensures after[k].isTest == Uncached(setup, ComputedUnder(setup, events, after[k].key), after[k].key)
    {
      if Position(s.cached, key) < |s.cached| {
        EntryAfterHit(setup, s, key, k);
      } else if k < |after| - 1 {
        EntryAfterMiss(setup, s, key, k);
      } else {
        ComputedIsUncached(setup, s, key);
      }
    }
  }

  lemma OtherEventKeepsComputed(setup: Setup, init: seq<Event>, e: Event)
    requires !e.Query? && CachedAsComputed(setup, init, Run(setup, init).cached)
    ensures CachedAsComputed(setup, init + [e], Step(setup, Run(setup, init), e).cached)
  {
    var s, events := Run(setup, init), init + [e];
    assert events[..|init|] == init;
    assert forall key :: ComputedUnder(setup, events, key) == ComputedUnder(setup, init, key);
  }

  /** In every run, however the configuration changes, the cache is bounded, has each query once, and answers
      it as matching without a cache does under the configuration in force when it was computed. */
  lemma {:induction false} AnswersAsComputed(setup: Setup, events: seq<Event>)
    ensures var s := Run(setup, events);
            FiltersCurrent(s) && |s.cached| <= CACHE_MAX && DistinctKeys(s.cached) &&
            CachedAsComputed(setup, events, s.cached)
  {
    if events != [] {
      var init, e := events[..|events| - 1], events[|events| - 1];
      assert events == init + [e];
      AnswersAsComputed(setup, init);
      StepKeepsFiltersCurrent(setup, Run(setup, init), e);
      if e.Query? {
        QueryKeepsDistinctKeys(setup, Run(setup, init), e.key);
        QueryKeepsComputed(setup, init, e.key);
      } else {
        OtherEventKeepsComputed(setup, init, e);
      }
    }
  }

  ghost predicate Right(setup: Setup, a: Answer) {
    a.isTest == Uncached(setup, a.config, a.key)
  }

  /** The configuration changes only by reloading. */
  predicate OnlyReloads(events: seq<Event>) {
    forall n :: 0 <= n < |events| ==> !events[n].Configure?
  }

  /** Without other changes of configuration what is cached was computed under the one in force. */
  lemma {:induction false} CachedUnderCurrent(setup: Setup, events: seq<Event>, key: Key)
    requires OnlyReloads(events)
    ensures var s := Run(setup, events);
            Position(s.cached, key) < |s.cached| ==> ComputedUnder(setup, events, key) == s.config
  {
    if events != [] {
      var init, e := events[..|events| - 1], events[|events| - 1];
      var s := Run(setup, init);
      CachedUnderCurrent(setup, init, key);
      if e.Query? && Position(s.cached, key) == |s.cached| && e.key != key {
        StillUncached(setup, s, e.key, key);
      }
    }
  }

  lemma StillUncached(setup: Setup, s: State, queried: Key, key: Key)
    requires queried != key && Position(s.cached, key) == |s.cached|
    ensures var after := QueryStep(setup, s, queried).cached; Position(after, key) == |after|
  {
    var after := QueryStep(setup, s, queried).cached;
    forall k | 0 <= k < |after| ensures after[k].key != key {
      if Position(s.cached, queried) < |s.cached| {
        EntryAfterHit(setup, s, queried, k);
        NotAt(s.cached, key, HitFrom(|s.cached|, Position(s.cached, queried), k));
      } else if k < |after| - 1 {
        EntryAfterMiss(setup, s, queried, k);
        NotAt(s.cached, key, k + (|s.cached| - |Room(s.cached)|));
      }
    }
    NotCached(after, key);
  }

  lemma QueryAnswers(setup: Setup, init: seq<Event>, key: Key)
    requires OnlyReloads(init)
    ensures var s := Run(setup, init); Right(setup, QueryStep(setup, s, key).answers[|s.answers|])
  {
    var s := Run(setup, init);
    AnswersAsComputed(setup, init);
    CachedUnderCurrent(setup, init, key);
    ComputedIsUncached(setup, s, key);
  }

  /** In every run in which the configuration changes only by reloading, every answer is the uncached one
      under the configuration then in force. */
  lemma {:induction false} AnswersAreUncached(setup: Setup, events: seq<Event>)
    requires OnlyReloads(events)
    ensures forall k :: 0 <= k < |Run(setup, events).answers| ==> Right(setup, Run(setup, events).answers[k])
  {
    if events != [] {
      var init, e := events[..|events| - 1], events[|events| - 1];
      AnswersAreUncached(setup, init);
      if e.Query? {
        QueryAnswers(setup, init, e.key);
      }
    }
  }

  /** Configuring the registry without a reload leaves the answers: a cached query still gets the answer of
      the configuration it was computed under. */
  lemma ConfigureKeepsOldAnswers(setup: Setup, events: seq<Event>, key: Key, config: Config)
    requires Position(Run(setup, events).cached, key) < |Run(setup, events).cached|
    ensures var s := Run(setup, events);
            var after := Step(setup, Step(setup, s, Configure(config)), Query(key));
            var earlier := Uncached(setup, ComputedUnder(setup, events, key), key);
            after.answers == s.answers + [Answer(key, earlier, Some(config))] &&
            (earlier != Uncached(setup, Some(config), key) ==> !Right(setup, after.answers[|s.answers|]))
  {
    AnswersAsComputed(setup, events);
  }

  // ----- which patterns decide

  predicate HasAny(patterns: PatternSet) {
    patterns.directories != [] || patterns.suffixes != [] || patterns.prefixes != []
  }

  /** The built-in default patterns, which have no include patterns. */
  function BuiltIn(setup: Setup): PatternSet {
    var p := setup.builtIn.defaults.patterns;
    PatternSet(p.directories, p.suffixes, p.prefixes, [])
  }

  /** The answer is that of these patterns or, if they have none but include patterns, of the built-in ones. */
  ghost predicate DecidedBy(setup: Setup, config: Option<Config>, key: Key, patterns: PatternSet) {
    Uncached(setup, config, key) <==>
    ClassifiedAsTest(setup.lib, if HasAny(patterns) then patterns else BuiltIn(setup), key.uri)
  }

  /** An enabled configuration of the language decides alone, else enabled defaults, else the fallback; without
      any of them or without a language the built-in patterns do. */
  lemma DecidedInOrder(setup: Setup, config: Option<Config>, key: Key)
    ensures config == None || key.language == None ==> DecidedBy(setup, config, key, BuiltIn(setup))
    ensures config.Some? && key.language.Some? ==>
              var c, language := config.value, key.language.value;
              var own := language in c.languages && c.languages[language].enabled;
              (own ==> DecidedBy(setup, config, key, c.languages[language].patterns)) &&
              (!own && c.defaults.enabled ==> DecidedBy(setup, config, key, c.defaults.patterns)) &&
              (!own && !c.defaults.enabled && c.fallback.Some? ==>
                DecidedBy(setup, config, key, c.fallback.value.patterns)) &&
              (!own && !c.defaults.enabled && c.fallback.None? ==> DecidedBy(setup, config, key, BuiltIn(setup)))
  {
    var patterns := match key.language
                    case None => DefaultPatterns(setup)
                    case Some(language) => OrDefault(setup, CreateFilter(config, language));
    IsTestExactly(setup.lib, patterns, key.uri);
  }

  /** A reload empties the caches and puts the loaded configuration in force if it has a language or a default
      pattern, otherwise the built-in one. */
  lemma ReloadedExactly(setup: Setup, events: seq<Event>, loaded: Option<Config>)
    ensures var after := Run(setup, events + [Reload(loaded)]);
            after.cached == [] && after.filters == map[] && after.answers == Run(setup, events).answers &&
            after.config == Some(if loaded.Some? && (loaded.value.languages != map[] || HasAny(loaded.value.defaults.patterns))
                                 then loaded.value else setup.builtIn)
  {
    assert (events + [Reload(loaded)])[..|events|] == events;
  }

  // ----- which answers are kept

  /** When a query was last made since the answers were last emptied. */
  function LastQuery(events: seq<Event>, key: Key): (i: int)
    ensures -1 <= i < |events|
  {
    if events == [] || events[|events| - 1].Reload? then -1
    else if events[|events| - 1] == Query(key) then |events| - 1
    else LastQuery(events[..|events| - 1], key)
  }

  predicate InOrder(events: seq<Event>, cached: seq<Cached>) {
    (forall k :: 0 <= k < |cached| ==> LastQuery(events, cached[k].key) >= 0) &&
    (forall j, k :: 0 <= j < k < |cached| ==> LastQuery(events, cached[j].key) < LastQuery(events, cached[k].key))
  }

  /** A query made since and not kept is older than all kept ones, and there was no room for it. */
  ghost predicate AbsentAreOlder(events: seq<Event>, cached: seq<Cached>) {
    forall key :: Position(cached, key) == |cached| && LastQuery(events, key) >= 0 ==>
      |cached| >= CACHE_MAX && forall k :: 0 <= k < |cached| ==> LastQuery(events, key) < LastQuery(events, cached[k].key)
  }

  lemma LastQueryAppend(events: seq<Event>, e: Event, key: Key)
    ensures LastQuery(events + [e], key) ==
            if e.Reload? then -1 else if e == Query(key) then |events| else LastQuery(events, key)
  {
    assert (events + [e])[..|events|] == events;
  }

  /** Where entry k of the cache comes from after a query. */
  function CameFrom(s: State, key: Key, k: nat): nat {
    var i := Position(s.cached, key);
    if i < |s.cached| then HitFrom(|s.cached|, i, k) else k + (|s.cached| - |Room(s.cached)|)
  }

  lemma EntryAfterQuery(setup: Setup, events: seq<Event>, s: State, key: Key, k: nat)
    requires DistinctKeys(s.cached) && k < |QueryStep(setup, s, key).cached| - 1
    ensures var after, j := QueryStep(setup, s, key).cached, CameFrom(s, key, k);
            j < |s.cached| && after[k] == s.cached[j] && after[k].key != key &&
            LastQuery(events + [Query(key)], after[k].key) == LastQuery(events, s.cached[j].key)
  {
    if Position(s.cached, key) < |s.cached| {
      EntryAfterHit(setup, s, key, k);
    } else {
      EntryAfterMiss(setup, s, key, k);
    }
    LastQueryAppend(events, Query(key), QueryStep(setup, s, key).cached[k].key);
  }

  lemma LastEntryIsQuery(setup: Setup, events: seq<Event>, s: State, key: Key)
    ensures var after := QueryStep(setup, s, key).cached;
            after != [] && after[|after| - 1].key == key && LastQuery(events + [Query(key)], key) == |events|
  {
    LastQueryAppend(events, Query(key), key);
  }

  lemma PairInOrder(setup: Setup, events: seq<Event>, s: State, key: Key, j: nat, k: nat)
    requires InOrder(events, s.cached) && DistinctKeys(s.cached) && j < k < |QueryStep(setup, s, key).cached| - 1
    ensures var all, after := events + [Query(key)], QueryStep(setup, s, key).cached;
            LastQuery(all, after[j].key) < LastQuery(all, after[k].key)
  {
    EntryAfterQuery(setup, events, s, key, j);
    EntryAfterQuery(setup, events, s, key, k);
    assert CameFrom(s, key, j) < CameFrom(s, key, k);
  }

  lemma KeptSince(setup: Setup, events: seq<Event>, s: State, key: Key, k: nat)
    requires InOrder(events, s.cached) && DistinctKeys(s.cached) && k < |QueryStep(setup, s, key).cached| - 1
    ensures 0 <= LastQuery(events + [Query(key)], QueryStep(setup, s, key).cached[k].key) < |events|
  {
    EntryAfterQuery(setup, events, s, key, k);
  }

  lemma QueryKeepsInOrder(setup: Setup, events: seq<Event>, s: State, key: Key)
    requires InOrder(events, s.cached) && DistinctKeys(s.cached)
    ensures InOrder(events + [Query(key)], QueryStep(setup, s, key).cached)
  {
    var all, after := events + [Query(key)], QueryStep(setup, s, key).cached;
    LastEntryIsQuery(setup, events, s, key);
    forall k | 0 <= k < |after| - 1 ensures 0 <= LastQuery(all, after[k].key) < |events| {
      KeptSince(setup, events, s, key, k);
    }
    forall j, k | 0 <= j < k < |after| - 1 ensures LastQuery(all, after[j].key) < LastQuery(all, after[k].key) {
      PairInOrder(setup, events, s, key, j, k);
    }
  }

  /** A key that is not kept after a query was not kept before, or was the oldest of a full cache. */
  lemma AbsentAfterQuery(setup: Setup, s: State, key: Key, absent: Key)
    requires Position(QueryStep(setup, s, key).cached, absent) == |QueryStep(setup, s, key).cached|
    requires |s.cached| <= CACHE_MAX
    ensures absent != key
    ensures Position(s.cached, absent) < |s.cached| ==>
              Position(s.cached, key) == |s.cached| == CACHE_MAX && Position(s.cached, absent) == 0
  {
    LastEntryIsQuery(setup, [], s, key);
    NotAt(QueryStep(setup, s, key).cached, absent, |QueryStep(setup, s, key).cached| - 1);
    if Position(s.cached, absent) < |s.cached| {
      if Position(s.cached, key) < |s.cached| {
        StaysAfterHit(setup, s, key, absent);
      } else if Position(s.cached, absent) >= |s.cached| - |Room(s.cached)| {
        StaysAfterMiss(setup, s, key, absent);
      }
    }
  }

  lemma StaysAfterHit(setup: Setup, s: State, key: Key, other: Key)
    requires Position(s.cached, key) < |s.cached| && Position(s.cached, other) < |s.cached| && other != key
    ensures Position(QueryStep(setup, s, key).cached, other) < |QueryStep(setup, s, key).cached|
  {
    var i, p := Position(s.cached, key), Position(s.cached, other);
    var k := if p < i then p else p - 1;
    EntryAfterHit(setup, s, key, k);
    if Position(QueryStep(setup, s, key).cached, other) == |QueryStep(setup, s, key).cached| {
      NotAt(QueryStep(setup, s, key).cached, other, k);
    }
  }

  lemma StaysAfterMiss(setup: Setup, s: State, key: Key, other: Key)
    requires Position(s.cached, key) == |s.cached|
    requires |s.cached| - |Room(s.cached)| <= Position(s.cached, other) < |s.cached|
    ensures Position(QueryStep(setup, s, key).cached, other) < |QueryStep(setup, s, key).cached|
  {
    var k := Position(s.cached, other) - (|s.cached| - |Room(s.cached)|);
    EntryAfterMiss(setup, s, key, k);
    if Position(QueryStep(setup, s, key).cached, other) == |QueryStep(setup, s, key).cached| {
      NotAt(QueryStep(setup, s, key).cached, other, k);
    }
  }

  lemma QueryKeepsAbsent(setup: Setup, events: seq<Event>, s: State, key: Key)
    requires InOrder(events, s.cached) && AbsentAreOlder(events, s.cached) && DistinctKeys(s.cached)
    requires |s.cached| <= CACHE_MAX
    ensures AbsentAreOlder(events + [Query(key)], QueryStep(setup, s, key).cached)
  {
    var all, after := events + [Query(key)], QueryStep(setup, s, key).cached;
    forall absent | Position(after, absent) == |after| && LastQuery(all, absent) >= 0
      ensures |after| >= CACHE_MAX && forall k :: 0 <= k < |after| ==> LastQuery(all, absent) < LastQuery(all, after[k].key)
    {
      AbsentAfterQuery(setup, s, key, absent);
      LastQueryAppend(events, Query(key), absent);
      assert |s.cached| == CACHE_MAX;
      forall k | 0 <= k < |after| ensures LastQuery(all, absent) < LastQuery(all, after[k].key) {
        LastQueryAppend(events, Query(key), after[k].key);
        if k < |after| - 1 {
          OlderEntry(setup, events, s, key, absent, k);
        }
      }
    }
  }

  lemma OlderEntry(setup: Setup, events: seq<Event>, s: State, key: Key, absent: Key, k: nat)
    requires InOrder(events, s.cached) && AbsentAreOlder(events, s.cached) && |s.cached| == CACHE_MAX
    requires k < |QueryStep(setup, s, key).cached| - 1 && LastQuery(events, absent) >= 0
    requires Position(s.cached, absent) < |s.cached| ==>
               Position(s.cached, key) == |s.cached| && Position(s.cached, absent) == 0
    ensures LastQuery(events, absent) < LastQuery(events, QueryStep(setup, s, key).cached[k].key)
  {
    if Position(s.cached, key) < |s.cached| {
      EntryAfterHit(setup, s, key, k);
    } else {
      EntryAfterMiss(setup, s, key, k);
    }
  }

  lemma OtherEventKeepsRecent(setup: Setup, events: seq<Event>, s: State, e: Event)
    requires InOrder(events, s.cached) && AbsentAreOlder(events, s.cached) && !e.Query?
    ensures InOrder(events + [e], Step(setup, s, e).cached) && AbsentAreOlder(events + [e], Step(setup, s, e).cached)
  {
    forall key ensures LastQuery(events + [e], key) == if e.Reload? then -1 else LastQuery(events, key) {
      LastQueryAppend(events, e, key);
    }
  }

  /** In every run the answers kept are those of the most recent queries since the last reload, in their order,
      and none is dropped while there is room. */
  lemma {:induction false} CacheIsRecent(setup: Setup, events: seq<Event>)
    ensures InOrder(events, Run(setup, events).cached) && AbsentAreOlder(events, Run(setup, events).cached)
  {
    if events != [] {
      var init, e := events[..|events| - 1], events[|events| - 1];
      assert events == init + [e];
      CacheIsRecent(setup, init);
      AnswersAsComputed(setup, init);
      if e.Query? {
        QueryKeepsInOrder(setup, init, Run(setup, init), e.key);
        QueryKeepsAbsent(setup, init, Run(setup, init), e.key);
      } else {
        OtherEventKeepsRecent(setup, init, Run(setup, init), e);
      }
    }
  }
}

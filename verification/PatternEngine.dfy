/** Glob patterns over paths: `**` stands for any run of segments, each other part of a pattern matches one
    segment by fnmatch. Lower-casing, fnmatch on one segment and the name of a path are those of the
    standard library. */
module PatternEngine {
  import opened Wrappers
  import opened Lines
  import opened Sequences

  datatype Library = Library(lower: string -> string, fnmatch: (string, string) -> bool, nameOf: string -> string)

  const GLOBSTAR := "**"

  function MatchSegments(lib: Library, path: seq<string>, pattern: seq<string>): bool
    decreases |path| + |pattern|
  {
    if pattern == [] then path == []
    else if path == [] then forall k :: 0 <= k < |pattern| ==> pattern[k] == GLOBSTAR
    else if pattern[0] == GLOBSTAR then
      MatchSegments(lib, path, pattern[1..]) || MatchSegments(lib, path[1..], pattern)
    else lib.fnmatch(path[0], pattern[0]) && MatchSegments(lib, path[1..], pattern[1..])
  }

  predicate MatchesPath(lib: Library, path: string, pattern: string) {
    MatchSegments(lib, Split(path, '/'), Split(pattern, '/'))
  }

  function AfterGlobstar(pattern: string): string
    requires GLOBSTAR <= pattern
  {
    var remaining := pattern[2..];
    if "/" <= remaining then remaining[1..] else remaining
  }

  predicate MatchesGlobstar(lib: Library, path: string, pattern: string)
    requires GLOBSTAR <= pattern
  {
    var parts := Split(path, '/');
    exists i :: 0 <= i < |parts| && MatchesPath(lib, Join(parts[i..], '/'), AfterGlobstar(pattern))
  }

  datatype Source = Default | LanguageConfig | UserOverride

  datatype CompiledPattern = CompiledPattern(pattern: string, lowered: string, source: Source)

  predicate MatchPath(lib: Library, p: CompiledPattern, path: string) {
    path != "" &&
    var lowered := lib.lower(path);
    if GLOBSTAR <= p.lowered then MatchesGlobstar(lib, lowered, p.lowered) else MatchesPath(lib, lowered, p.lowered)
  }

  predicate MatchFilename(lib: Library, p: CompiledPattern, name: string) {
    name != "" && lib.fnmatch(lib.lower(name), p.lowered)
  }

  // ----- what matching means

  function Concat(blocks: seq<seq<string>>): seq<string> {
    if blocks == [] then [] else blocks[0] + Concat(blocks[1..])
  }

  predicate Fits(lib: Library, block: seq<string>, part: string) {
    part == GLOBSTAR || (|block| == 1 && lib.fnmatch(block[0], part))
  }

  /** A cut of the path into one block for each part: any run of segments for `**`, else one matching
      segment. */
  predicate IsCut(lib: Library, path: seq<string>, pattern: seq<string>, blocks: seq<seq<string>>) {
    |blocks| == |pattern| && Concat(blocks) == path &&
    forall k :: 0 <= k < |blocks| ==> Fits(lib, blocks[k], pattern[k])
  }

  ghost predicate CanBeCut(lib: Library, path: seq<string>, pattern: seq<string>) {
    exists blocks :: IsCut(lib, path, pattern, blocks)
  }

  lemma {:induction false} EmptyBlocks(lib: Library, pattern: seq<string>) returns (blocks: seq<seq<string>>)
    requires forall k :: 0 <= k < |pattern| ==> pattern[k] == GLOBSTAR
    ensures IsCut(lib, [], pattern, blocks)
  {
    blocks := [];
    if pattern != [] {
      var rest := EmptyBlocks(lib, pattern[1..]);
      blocks := [[]] + rest;
    }
  }

  /** A match gives a cut. */
  lemma {:induction false} CutOfMatch(lib: Library, path: seq<string>, pattern: seq<string>)
    returns (blocks: seq<seq<string>>)
    requires MatchSegments(lib, path, pattern)
    ensures IsCut(lib, path, pattern, blocks)
    decreases |path| + |pattern|
  {
    if pattern == [] {
      blocks := [];
    } else if path == [] {
      blocks := EmptyBlocks(lib, pattern);
    } else if pattern[0] == GLOBSTAR {
      if MatchSegments(lib, path, pattern[1..]) {
        var rest := CutOfMatch(lib, path, pattern[1..]);
        blocks := [[]] + rest;
        assert Concat(blocks) == [] + Concat(rest);
      } else {
        var rest := CutOfMatch(lib, path[1..], pattern);
        blocks := [[path[0]] + rest[0]] + rest[1..];
        Assoc([path[0]], rest[0], Concat(rest[1..]));
        assert blocks[1..] == rest[1..];
      }
    } else {
      var rest := CutOfMatch(lib, path[1..], pattern[1..]);
      blocks := [[path[0]]] + rest;
      assert blocks[1..] == rest;
    }
  }

  lemma {:induction false} NoSegmentsLeft(blocks: seq<seq<string>>, k: nat)
    requires Concat(blocks) == [] && k < |blocks|
    ensures blocks[k] == []
  {
    if k > 0 {
      NoSegmentsLeft(blocks[1..], k - 1);
    }
  }

  /** A cut gives a match. */
  lemma {:induction false} MatchOfCut(lib: Library, path: seq<string>, pattern: seq<string>, blocks: seq<seq<string>>)
    requires IsCut(lib, path, pattern, blocks)
    ensures MatchSegments(lib, path, pattern)
    decreases |path| + |pattern|
  {
    if pattern == [] {
    } else if path == [] {
      forall k | 0 <= k < |pattern| ensures pattern[k] == GLOBSTAR {
        NoSegmentsLeft(blocks, k);
        assert Fits(lib, blocks[k], pattern[k]);
      }
    } else {
      assert Fits(lib, blocks[0], pattern[0]);
      assert forall k :: 0 <= k < |blocks[1..]| ==> Fits(lib, blocks[1..][k], pattern[1..][k]);
      if pattern[0] == GLOBSTAR && blocks[0] != [] {
        ShorterFirstBlock(lib, path, pattern, blocks);
        MatchOfCut(lib, path[1..], pattern, [blocks[0][1..]] + blocks[1..]);
      } else if pattern[0] == GLOBSTAR {
        assert path == [] + Concat(blocks[1..]);
        MatchOfCut(lib, path, pattern[1..], blocks[1..]);
      } else {
        assert path[1..] == Concat(blocks[1..]);
        MatchOfCut(lib, path[1..], pattern[1..], blocks[1..]);
      }
    }
  }

  lemma ShorterFirstBlock(lib: Library, path: seq<string>, pattern: seq<string>, blocks: seq<seq<string>>)
    requires IsCut(lib, path, pattern, blocks) && pattern != [] && pattern[0] == GLOBSTAR && blocks[0] != []
    ensures path != [] && IsCut(lib, path[1..], pattern, [blocks[0][1..]] + blocks[1..])
  {
    var shorter := [blocks[0][1..]] + blocks[1..];
    assert shorter[1..] == blocks[1..];
    assert path[1..] == blocks[0][1..] + Concat(blocks[1..]);
    forall k | 0 <= k < |shorter| ensures Fits(lib, shorter[k], pattern[k]) {
      assert Fits(lib, blocks[k], pattern[k]);
    }
  }

  /** Matching holds exactly when the path can be cut to fit the pattern. */
  lemma MatchesExactly(lib: Library, path: seq<string>, pattern: seq<string>)
    ensures MatchSegments(lib, path, pattern) <==> CanBeCut(lib, path, pattern)
  {
    if MatchSegments(lib, path, pattern) {
      var blocks := CutOfMatch(lib, path, pattern);
    }
    if CanBeCut(lib, path, pattern) {
      var blocks :| IsCut(lib, path, pattern, blocks);
      MatchOfCut(lib, path, pattern, blocks);
    }
  }

  // ----- the suffix search for a leading globstar

  predicate SomeSuffixMatches(lib: Library, path: seq<string>, pattern: seq<string>) {
    exists i :: 0 <= i < |path| && MatchSegments(lib, path[i..], pattern)
  }

  /** A leading globstar matches as a search over the suffixes that are not empty. */
  lemma {:induction false} GlobstarIsSuffixSearch(lib: Library, path: seq<string>, pattern: seq<string>)
    requires path != [] && pattern != []
    ensures MatchSegments(lib, path, [GLOBSTAR] + pattern) <==> SomeSuffixMatches(lib, path, pattern)
  {
    var full := [GLOBSTAR] + pattern;
    assert full[1..] == pattern;
    if |path| == 1 {
      if MatchSegments(lib, [], full) {
        EmptyPathMatches(lib, path, full);
      }
      assert path[1..] == [] && path[0..] == path;
    } else {
      GlobstarIsSuffixSearch(lib, path[1..], pattern);
      if SomeSuffixMatches(lib, path[1..], pattern) {
        var i :| 0 <= i < |path[1..]| && MatchSegments(lib, path[1..][i..], pattern);
        assert path[1..][i..] == path[i + 1..];
      }
      if MatchSegments(lib, path, pattern) {
        assert path[0..] == path;
      }
      if SomeSuffixMatches(lib, path, pattern) && !MatchSegments(lib, path, pattern) {
        var i :| 0 <= i < |path| && MatchSegments(lib, path[i..], pattern);
        assert i > 0 && path[1..][i - 1..] == path[i..];
      }
    }
  }

  /** Only globstars are left for an empty path, and they also match a segment. */
  lemma EmptyPathMatches(lib: Library, path: seq<string>, full: seq<string>)
    requires |path| == 1 && |full| > 1 && MatchSegments(lib, [], full)
    ensures MatchSegments(lib, path, full[1..])
  {
    assert full[1] == GLOBSTAR;
    assert full[1..][0] == GLOBSTAR;
    assert path[1..] == [];
  }

  lemma SplitSuffix(path: string, i: nat)
    requires i < |Split(path, '/')|
    ensures Split(Join(Split(path, '/')[i..], '/'), '/') == Split(path, '/')[i..]
  {
    SplitPartsHaveNoSeparator(path, '/');
    SplitJoin(Split(path, '/')[i..], '/');
  }

  lemma SuffixSearch(lib: Library, path: string, pattern: string)
    requires GLOBSTAR <= pattern
    ensures MatchesGlobstar(lib, path, pattern) <==>
            SomeSuffixMatches(lib, Split(path, '/'), Split(AfterGlobstar(pattern), '/'))
  {
    var parts, rest := Split(path, '/'), Split(AfterGlobstar(pattern), '/');
    forall i | 0 <= i < |parts|
      ensures MatchesPath(lib, Join(parts[i..], '/'), AfterGlobstar(pattern)) <==> MatchSegments(lib, parts[i..], rest)
    {
      SplitSuffix(path, i);
    }
  }

  /** A pattern that starts with a globstar matches as a globstar in front of the rest of its parts. */
  lemma GlobstarMatchesExactly(lib: Library, path: string, pattern: string)
    requires GLOBSTAR <= pattern
    ensures MatchesGlobstar(lib, path, pattern) <==>
            CanBeCut(lib, Split(path, '/'), [GLOBSTAR] + Split(AfterGlobstar(pattern), '/'))
  {
    var parts, rest := Split(path, '/'), Split(AfterGlobstar(pattern), '/');
    SuffixSearch(lib, path, pattern);
    GlobstarIsSuffixSearch(lib, parts, rest);
    MatchesExactly(lib, parts, [GLOBSTAR] + rest);
  }

  /** For a pattern with a slash after its globstar this is the meaning of the whole pattern. */
  lemma GlobstarSlashMatchesExactly(lib: Library, path: string, rest: string)
    ensures MatchesGlobstar(lib, path, GLOBSTAR + "/" + rest) <==>
            CanBeCut(lib, Split(path, '/'), Split(GLOBSTAR + "/" + rest, '/'))
  {
    var pattern := GLOBSTAR + "/" + rest;
    assert pattern[2..] == "/" + rest && pattern[2..][1..] == rest;
    assert AfterGlobstar(pattern) == rest;
    GlobstarMatchesExactly(lib, path, pattern);
    SplitAfterPart(GLOBSTAR, rest, '/');
    assert GLOBSTAR + ['/'] + rest == pattern;
  }

  lemma EmptyPatternMatches(lib: Library, parts: seq<string>)
    requires parts != []
    ensures MatchSegments(lib, parts, [""]) <==> |parts| == 1 && lib.fnmatch(parts[0], "")
  {
    assert [""][1..] == [];
    assert MatchSegments(lib, parts[1..], []) <==> parts[1..] == [];
  }

  lemma OnlyLastSuffix(lib: Library, parts: seq<string>)
    requires parts != []
    ensures SomeSuffixMatches(lib, parts, [""]) <==> lib.fnmatch(parts[|parts| - 1], "")
  {
    var n := |parts| - 1;
    forall i | 0 <= i < |parts|
      ensures MatchSegments(lib, parts[i..], [""]) <==> i == n && lib.fnmatch(parts[n], "")
    {
      EmptyPatternMatches(lib, parts[i..]);
    }
    assert MatchSegments(lib, parts[n..], [""]) <==> lib.fnmatch(parts[n], "");
  }

  /** A bare globstar is not a match for everything: alone, or with only a slash after it, it matches
      exactly the paths whose last segment matches the empty pattern. */
  lemma BareGlobstarMatchesExactly(lib: Library, path: string, pattern: string)
    requires GLOBSTAR <= pattern && AfterGlobstar(pattern) == ""
    ensures var parts := Split(path, '/');
            MatchesGlobstar(lib, path, pattern) <==> lib.fnmatch(parts[|parts| - 1], "")
  {
    var parts, rest := Split(path, '/'), Split(AfterGlobstar(pattern), '/');
    assert rest == [""];
    SuffixSearch(lib, path, pattern);
    OnlyLastSuffix(lib, parts);
  }

  // ----- sets of patterns

  datatype Kind = Include | Directory | Suffix | Prefix

  datatype PatternSet = PatternSet(directories: seq<CompiledPattern>, suffixes: seq<CompiledPattern>,
                                   prefixes: seq<CompiledPattern>, includes: seq<CompiledPattern>)

  const NO_PATTERNS := PatternSet([], [], [], [])

  /** Include patterns do not count. */
  predicate IsEmpty(patterns: PatternSet) {
    patterns.directories == [] && patterns.suffixes == [] && patterns.prefixes == []
  }

  function OfKind(patterns: PatternSet, kind: Kind): seq<CompiledPattern> {
    match kind
    case Include => patterns.includes
    case Directory => patterns.directories
    case Suffix => patterns.suffixes
    case Prefix => patterns.prefixes
  }

  datatype MatchResult = MatchResult(isMatch: bool, matched: Option<(Kind, CompiledPattern)>)

  function PathOf(uri: string): string {
    if "file://" <= uri then uri[7..] else uri
  }

  predicate Applies(lib: Library, uri: string, kind: Kind, p: CompiledPattern) {
    if kind.Include? || kind.Directory? then MatchPath(lib, p, lib.lower(PathOf(uri)))
    else MatchFilename(lib, p, lib.lower(lib.nameOf(PathOf(uri))))
  }

  predicate AnyApplies(lib: Library, uri: string, patterns: PatternSet, kind: Kind) {
    exists k :: 0 <= k < |OfKind(patterns, kind)| && Applies(lib, uri, kind, OfKind(patterns, kind)[k])
  }

  /** A URI is a test when a directory, suffix or prefix pattern applies and no include pattern does. */
  predicate IsTest(lib: Library, patterns: PatternSet, uri: string) {
    uri != "" && !AnyApplies(lib, uri, patterns, Include) &&
    (AnyApplies(lib, uri, patterns, Directory) || AnyApplies(lib, uri, patterns, Suffix) ||
     AnyApplies(lib, uri, patterns, Prefix))
  }

  predicate IsFirst(lib: Library, uri: string, kind: Kind, ps: seq<CompiledPattern>, p: CompiledPattern) {
    exists k :: 0 <= k < |ps| && ps[k] == p && Applies(lib, uri, kind, p) &&
                forall j :: 0 <= j < k ==> !Applies(lib, uri, kind, ps[j])
  }

  function Priority(kind: Kind): nat {
    match kind
    case Include => 1
    case Directory => 2
    case Suffix => 3
    case Prefix => 4
  }

  /** No pattern of a kind that is asked before this one applies. */
  predicate NoneEarlier(lib: Library, uri: string, patterns: PatternSet, kind: Kind) {
    forall earlier :: Priority(earlier) < Priority(kind) ==> !AnyApplies(lib, uri, patterns, earlier)
  }

  // ----- what a set of patterns means, in terms of the path and the name of the file

  /** The parts of a lowered pattern: a leading globstar is one even without a slash behind it, and one slash
      there is dropped. */
  function PartsOf(pattern: string): seq<string> {
    if "**" <= pattern then ["**"] + Split(if "**/" <= pattern then pattern[3..] else pattern[2..], '/')
    else Split(pattern, '/')
  }

  /** The whole path, lowered twice, can be cut to fit the pattern. */
  ghost predicate PathFits(lib: Library, path: string, p: CompiledPattern) {
    lib.lower(path) != "" && CanBeCut(lib, Split(lib.lower(lib.lower(path)), '/'), PartsOf(p.lowered))
  }

  /** The name of the file, lowered twice, matches the pattern. */
  predicate NameFits(lib: Library, path: string, p: CompiledPattern) {
    var name := lib.lower(lib.nameOf(path));
    name != "" && lib.fnmatch(lib.lower(name), p.lowered)
  }

  ghost predicate SomePathFits(lib: Library, path: string, ps: seq<CompiledPattern>) {
    exists k :: 0 <= k < |ps| && PathFits(lib, path, ps[k])
  }

  predicate SomeNameFits(lib: Library, path: string, ps: seq<CompiledPattern>) {
    exists k :: 0 <= k < |ps| && NameFits(lib, path, ps[k])
  }

  lemma PathAppliesExactly(lib: Library, path: string, p: CompiledPattern)
    ensures MatchPath(lib, p, lib.lower(path)) <==> PathFits(lib, path, p)
  {
    var lowered, pattern := lib.lower(lib.lower(path)), p.lowered;
    if GLOBSTAR <= pattern {
      assert "/" <= pattern[2..] <==> "**/" <= pattern;
      assert "**/" <= pattern ==> pattern[2..][1..] == pattern[3..];
      GlobstarMatchesExactly(lib, lowered, pattern);
    } else {
      MatchesExactly(lib, Split(lowered, '/'), Split(pattern, '/'));
    }
  }

  lemma AppliesExactly(lib: Library, uri: string, kind: Kind, p: CompiledPattern)
    ensures var path := if "file://" <= uri then uri[7..] else uri;
            Applies(lib, uri, kind, p) <==>
            if kind.Include? || kind.Directory? then PathFits(lib, path, p) else NameFits(lib, path, p)
  {
    PathAppliesExactly(lib, PathOf(uri), p);
  }

  lemma AnyAppliesExactly(lib: Library, uri: string, patterns: PatternSet, kind: Kind)
    ensures var path := if "file://" <= uri then uri[7..] else uri;
            AnyApplies(lib, uri, patterns, kind) <==>
            match kind
            case Include => SomePathFits(lib, path, patterns.includes)
            case Directory => SomePathFits(lib, path, patterns.directories)
            case Suffix => SomeNameFits(lib, path, patterns.suffixes)
            case Prefix => SomeNameFits(lib, path, patterns.prefixes)
  {
    var ps := OfKind(patterns, kind);
    forall k | 0 <= k < |ps|
      ensures Applies(lib, uri, kind, ps[k]) <==>
              if kind.Include? || kind.Directory? then PathFits(lib, PathOf(uri), ps[k])
              else NameFits(lib, PathOf(uri), ps[k])
    {
      AppliesExactly(lib, uri, kind, ps[k]);
    }
  }

  /** The path is the URI without a leading "file://". No include pattern fits it, and a directory pattern does or
      a suffix or prefix pattern fits the name of the file. */
  ghost predicate ClassifiedAsTest(lib: Library, patterns: PatternSet, uri: string) {
    var path := if "file://" <= uri then uri[7..] else uri;
    uri != "" && !SomePathFits(lib, path, patterns.includes) &&
    (SomePathFits(lib, path, patterns.directories) || SomeNameFits(lib, path, patterns.suffixes) ||
     SomeNameFits(lib, path, patterns.prefixes))
  }

  lemma IsTestExactly(lib: Library, patterns: PatternSet, uri: string)
    ensures IsTest(lib, patterns, uri) <==> ClassifiedAsTest(lib, patterns, uri)
  {
    AnyAppliesExactly(lib, uri, patterns, Include);
    AnyAppliesExactly(lib, uri, patterns, Directory);
    AnyAppliesExactly(lib, uri, patterns, Suffix);
    AnyAppliesExactly(lib, uri, patterns, Prefix);
  }

  method FirstWhere(ps: seq<CompiledPattern>, test: CompiledPattern -> bool) returns (k: nat)
    ensures k <= |ps| && (k < |ps| ==> test(ps[k]))
    ensures forall j :: 0 <= j < k ==> !test(ps[j])
  {
    for i := 0 to |ps|
      invariant forall j :: 0 <= j < i ==> !test(ps[j])
    {
      if test(ps[i]) {
        return i;
      }
    }
    return |ps|;
  }

  method FirstApplying(lib: Library, uri: string, patterns: PatternSet, kind: Kind)
    returns (found: Option<CompiledPattern>)
    ensures found.Some? <==> AnyApplies(lib, uri, patterns, kind)
    ensures found.Some? ==> IsFirst(lib, uri, kind, OfKind(patterns, kind), found.value)
  {
    var ps := OfKind(patterns, kind);
    var k := FirstWhere(ps, p => Applies(lib, uri, kind, p));
    found := if k < |ps| then Some(ps[k]) else None;
  }

  /** The first pattern that applies decides: include patterns first, then directory, suffix and prefix
      patterns. */
  method Match(lib: Library, patterns: PatternSet, uri: string) returns (r: MatchResult)
    ensures r.isMatch <==> IsTest(lib, patterns, uri)
    ensures r.isMatch <==> ClassifiedAsTest(lib, patterns, uri)
    ensures r.matched.Some? ==>
              var (kind, p) := r.matched.value;
              uri != "" && NoneEarlier(lib, uri, patterns, kind) &&
              IsFirst(lib, uri, kind, OfKind(patterns, kind), p) && (r.isMatch <==> !kind.Include?)
    ensures r.matched.None? ==> uri == "" || forall kind :: !AnyApplies(lib, uri, patterns, kind)
  {
    ghost var isTest := ClassifiedAsTest(lib, patterns, uri);
    assert isTest <==> IsTest(lib, patterns, uri) by {
      IsTestExactly(lib, patterns, uri);
    }
    if uri == "" {
      return MatchResult(false, None);
    }
    var found := FirstApplying(lib, uri, patterns, Include);
    if found.Some? {
      return MatchResult(false, Some((Include, found.value)));
    }
    found := FirstApplying(lib, uri, patterns, Directory);
    if found.Some? {
      return MatchResult(true, Some((Directory, found.value)));
    }
    found := FirstApplying(lib, uri, patterns, Suffix);
    if found.Some? {
      return MatchResult(true, Some((Suffix, found.value)));
    }
    found := FirstApplying(lib, uri, patterns, Prefix);
    if found.Some? {
      return MatchResult(true, Some((Prefix, found.value)));
    }
    return MatchResult(false, None);
  }
}

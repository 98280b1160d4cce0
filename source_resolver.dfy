/** fetchSourceFromGithub (functions/index.js:173-321): for every file hint, find
    the file's path in the repository by up to three strategies, then read the
    file, cut the excerpt around the crash line and list its recent commits. The
    answers of the GitHub requests made for the k-th hint are the input
    `answers(k)`. */
module SourceResolver {
  import opened Text
  import opened Excerpt
  import CrashParser
  import GitTree

  /** One entry of `fileInfo`: the parser fills `file` and `line`; the source
      also accepts a `filePath` when `file` is falsy. */
  datatype Hint = Hint(file: Option<string>, filePath: Option<string>, line: Option<nat>)

  /** A git commit as listCommits reports it. */
  datatype Commit = Commit(message: string, authorName: string, authorDate: string)

  /** search.code's answer: `total_count` and the paths of the returned items. */
  datatype SearchAnswer = SearchAnswer(totalCount: int, paths: seq<string>)

  /** getContent's answer for a file: its text (already decoded) and its blob sha. */
  datatype Blob = Blob(content: string, sha: string)

  /** What GitHub answers to each request the source may make for one hint:
      the direct getContent probe (succeeds or not), search.code, the clock and
      tree listing for the tree fallback, getContent of the resolved path and
      listCommits. A request the source does not make is never consulted. */
  datatype ItemAnswers = ItemAnswers(
    probe: bool,
    search: Result<SearchAnswer>,
    now: int,
    tree: Result<seq<GitTree.TreeEntry>>,
    blob: Result<Blob>,
    commits: Result<seq<Commit>>)

  /** The three strategies, in the order they are tried. */
  datatype Tier = Direct | CodeSearch | TreeFallback

  /** The path found (if any), the strategies tried and the tree cache afterwards. */
  datatype Resolution = Resolution(path: Option<string>, tiers: seq<Tier>, cache: GitTree.CacheState)

  /** One entry of the results array. A field the source leaves out of the object
      is None. */
  datatype SourceResult = SourceResult(
    file: string,
    filePath: Option<string>,
    line: Option<nat>,
    content: Option<string>,
    fullContent: Option<string>,
    sha: Option<string>,
    recentCommits: Option<string>,
    error: Option<string>)

  const NotFound: string := "파일을 찾을 수 없음"
  const CommitsUnavailable: string := "커밋 이력 조회 실패"

  /** A parser entry as a hint. */
  function FromLocation(e: CrashParser.FileLocation): Hint {
    Hint(Some(e.file), None, e.line)
  }

  /** `item.file || item.filePath`, when truthy. */
  function HintName(h: Hint): (r: Option<string>)
    ensures r.Some? <==> Truthy(h.file) || Truthy(h.filePath)
    ensures r.Some? ==>
      (r.value != [] &&
       ((h.file.Some? && r.value == h.file.value) || (h.filePath.Some? && r.value == h.filePath.value)))
    ensures Truthy(h.file) ==> r == h.file
    ensures !Truthy(h.file) && Truthy(h.filePath) ==> r == h.filePath
  {
    if Truthy(h.file) then h.file else if Truthy(h.filePath) then h.filePath else None
  }

  // ---------------------------------------------------------------------------
  // The three strategies

  /** Strategy 2: with a positive total count, the item whose path is the hint,
      else item 0; reading item 0 of an empty list throws inside the try, which
      leaves the path unresolved, as does a failed request. */
  function SearchPick(file: string, answer: Result<SearchAnswer>): Option<string> {
    match answer
    case Err(_) => None
    case Ok(a) =>
      if a.totalCount <= 0 then None
      else if file in a.paths then Some(file)
      else if |a.paths| > 0 then Some(a.paths[0])
      else None
  }

  /** `p === file || p.endsWith(`/${fileName}`)` with fileName the last `/` piece. */
  predicate TreeMatches(file: string, p: string) {
    p == file || EndsWith(p, "/" + Basename(file))
  }

  /** Strategy 3: matchingPaths[0]. */
  function TreePick(file: string, paths: seq<string>): (r: Option<string>)
    ensures r.Some? ==> r.value in paths && TreeMatches(file, r.value)
  {
    if paths == [] then None
    else if TreeMatches(file, paths[0]) then Some(paths[0])
    else TreePick(file, paths[1..])
  }

  /** The path the three strategies settle on for hint `file`. */
  function ResolveSpec(file: string, ans: ItemAnswers, cache: GitTree.CacheState): Resolution {
    var probed := '/' in file;
    var direct := if probed && ans.probe then Some(file) else None;
    var tried := if probed then [Direct] else [];
    if Truthy(direct) then Resolution(direct, tried, cache)
    else
      var searched := SearchPick(file, ans.search);
      if Truthy(searched) then Resolution(searched, tried + [CodeSearch], cache)
      else
        var lookup := GitTree.GetTreeFilesSpec(cache, ans.now, ans.tree);
        var picked := if lookup.files.Ok? then TreePick(file, lookup.files.value) else None;
        Resolution(picked, tried + [CodeSearch, TreeFallback], lookup.next)
  }

  // ---------------------------------------------------------------------------
  // The record of one hint

  /** `- ${first line of the message} (${author}, ${date.slice(0, 10)})` */
  function CommitLine(c: Commit): string {
    "- " + Split(c.message, '\n')[0] + " (" + c.authorName + ", " + Prefix(c.authorDate, 10) + ")"
  }

  function CommitLines(cs: seq<Commit>): (r: seq<string>)
    ensures |r| == |cs|
  {
    if cs == [] then [] else [CommitLine(cs[0])] + CommitLines(cs[1..])
  }

  /** recentCommits: the commit lines joined by newlines, or the failure text. */
  function CommitHistory(commits: Result<seq<Commit>>): string {
    match commits
    case Err(_) => CommitsUnavailable
    case Ok(cs) => Join(CommitLines(cs), "\n")
  }

  /** The record pushed once `path` is resolved: the file's excerpt, text, sha and
      history, or, when reading the file throws, the error record of the outer catch. */
  function FoundRecord(file: string, line: Option<nat>, path: string, ans: ItemAnswers): SourceResult {
    match ans.blob
    case Err(msg) => SourceResult(file, None, line, None, None, None, None, Some(msg))
    case Ok(b) =>
      SourceResult(file, Some(path), line, Some(ExcerptText(Split(b.content, '\n'), line)),
                   Some(b.content), Some(b.sha), Some(CommitHistory(ans.commits)), None)
  }

  /** The record of a hint none of the strategies resolved. */
  function NotFoundRecord(file: string, line: Option<nat>): SourceResult {
    SourceResult(file, None, line, None, None, None, None, Some(NotFound))
  }

  /** The progress of the loop: the results so far and the tree cache. */
  datatype Progress = Progress(results: seq<SourceResult>, cache: GitTree.CacheState)

  /** One iteration: a hint without a name is skipped. */
  function Step(p: Progress, h: Hint, ans: ItemAnswers): Progress {
    match HintName(h)
    case None => p
    case Some(file) =>
      var res := ResolveSpec(file, ans, p.cache);
      var record := if Truthy(res.path) then FoundRecord(file, h.line, res.path.value, ans)
                    else NotFoundRecord(file, h.line);
      Progress(p.results + [record], res.cache)
  }

  /** The state after the first `n` hints. */
  function Fetched(hints: seq<Hint>, answers: nat -> ItemAnswers, cache: GitTree.CacheState, n: nat): Progress
    requires n <= |hints|
  {
    if n == 0 then Progress([], cache)
    else Step(Fetched(hints, answers, cache, n - 1), hints[n - 1], answers(n - 1))
  }

  // ---------------------------------------------------------------------------
  // The loops as the source runs them

  /** The strategies for one hint, `filePath` updated step by step. */
  method ResolvePath(file: string, ans: ItemAnswers, cache: GitTree.TreeCache)
    returns (filePath: Option<string>, tiers: seq<Tier>)
    modifies cache
    ensures Resolution(filePath, tiers, cache.State()) == ResolveSpec(file, ans, old(cache.State()))
  {
    filePath := None;
    tiers := [];
    if '/' in file {
      tiers := tiers + [Direct];
      if ans.probe {
        filePath := Some(file);
      }
    }
    if !Truthy(filePath) {
      tiers := tiers + [CodeSearch];
      filePath := SearchPick(file, ans.search);
    }
    if !Truthy(filePath) {
      tiers := tiers + [TreeFallback];
      var allFiles := cache.GetTreeFiles(ans.now, ans.tree);
      if allFiles.Ok? {
        filePath := FirstMatching(file, allFiles.value);
      } else {
        filePath := None;
      }
    }
  }

  /** allFiles.filter(...)[0] */
  method FirstMatching(file: string, paths: seq<string>) returns (r: Option<string>)
    ensures r == TreePick(file, paths)
  {
    var k := 0;
    while k < |paths| && !TreeMatches(file, paths[k])
      invariant k <= |paths|
      invariant TreePick(file, paths[k..]) == TreePick(file, paths)
    {
      assert paths[k..][1..] == paths[k + 1..];
      k := k + 1;
    }
    r := if k < |paths| then Some(paths[k]) else None;
  }

  /** fetchSourceFromGithub: one record per named hint, in order. */
  method FetchSourceFromGithub(hints: seq<Hint>, answers: nat -> ItemAnswers, cache: GitTree.TreeCache)
    returns (results: seq<SourceResult>)
    modifies cache
    ensures Progress(results, cache.State()) == Fetched(hints, answers, old(cache.State()), |hints|)
  {
    ghost var cache0 := cache.State();
    results := [];
    var i := 0;
    while i < |hints|
      invariant i <= |hints|
      invariant Progress(results, cache.State()) == Fetched(hints, answers, cache0, i)
    {
      var h, ans := hints[i], answers(i);
      var name := HintName(h);
      if name.Some? {
        var file := name.value;
        var filePath, _ := ResolvePath(file, ans, cache);
        if !Truthy(filePath) {
          results := results + [NotFoundRecord(file, h.line)];
        } else {
          results := results + [FoundRecord(file, h.line, filePath.value, ans)];
        }
      }
      i := i + 1;
    }
  }

  // ---------------------------------------------------------------------------
  // Properties of the strategies

  /** The direct probe is made exactly when the hint contains a `/`. */
  lemma {:induction false} DirectTierIff(file: string, ans: ItemAnswers, cache: GitTree.CacheState)
    ensures Direct in ResolveSpec(file, ans, cache).tiers <==> '/' in file
  {
  }

  /** Code search runs exactly when the direct probe did not resolve the path. */
  lemma {:induction false} SearchTierIff(file: string, ans: ItemAnswers, cache: GitTree.CacheState)
    ensures CodeSearch in ResolveSpec(file, ans, cache).tiers <==> !('/' in file && ans.probe)
  {
  }

  /** The tree fallback runs exactly when code search ran and left the path
      unresolved; only then may the tree cache change. */
  lemma {:induction false} TreeTierIff(file: string, ans: ItemAnswers, cache: GitTree.CacheState)
    ensures var r := ResolveSpec(file, ans, cache);
      (TreeFallback in r.tiers <==> CodeSearch in r.tiers && !Truthy(SearchPick(file, ans.search))) &&
      (TreeFallback !in r.tiers ==> r.cache == cache)
  {
  }

  /** The position of a strategy in the order of trial. */
  function Rank(t: Tier): nat {
    match t
    case Direct => 0
    case CodeSearch => 1
    case TreeFallback => 2
  }

  /** The strategies are tried in order, each at most once, and at least one is. */
  lemma {:induction false} TiersInOrder(file: string, ans: ItemAnswers, cache: GitTree.CacheState)
    ensures var t := ResolveSpec(file, ans, cache).tiers;
      0 < |t| <= 3 && forall i, j :: 0 <= i < j < |t| ==> Rank(t[i]) < Rank(t[j])
  {
  }

  /** A resolved path came from the last strategy tried: the hint itself, a
      search hit or a matching tree path. */
  lemma {:induction false} ResolvedPathOrigin(file: string, ans: ItemAnswers, cache: GitTree.CacheState)
    ensures var r := ResolveSpec(file, ans, cache);
      r.path.Some? ==>
        (r.tiers[|r.tiers| - 1] == Direct ==> r.path.value == file) &&
        (r.tiers[|r.tiers| - 1] == CodeSearch ==> ans.search.Ok? && r.path.value in ans.search.value.paths) &&
        (r.tiers[|r.tiers| - 1] == TreeFallback ==> TreeMatches(file, r.path.value))
  {
    var r := ResolveSpec(file, ans, cache);
    if !('/' in file && ans.probe) {
      var searched := SearchPick(file, ans.search);
      if !Truthy(searched) {
        var lookup := GitTree.GetTreeFilesSpec(cache, ans.now, ans.tree);
        assert r.tiers[|r.tiers| - 1] == TreeFallback;
        assert r.path == (if lookup.files.Ok? then TreePick(file, lookup.files.value) else None);
      }
    }
  }

  /** Code search prefers the item whose path is exactly the hint, then item 0. */
  lemma {:induction false} SearchPrefersExact(file: string, a: SearchAnswer)
    requires a.totalCount > 0
    ensures file in a.paths ==> SearchPick(file, Ok(a)) == Some(file)
    ensures file !in a.paths && |a.paths| > 0 ==> SearchPick(file, Ok(a)) == Some(a.paths[0])
    ensures |a.paths| == 0 ==> SearchPick(file, Ok(a)) == None
  {
  }

  /** The tree fallback picks the first path that is the hint or ends in
      `/` + its file name, and finds nothing only when no path does. */
  lemma {:induction false} TreePickFirst(file: string, paths: seq<string>)
    ensures TreePick(file, paths).None? <==> forall k :: 0 <= k < |paths| ==> !TreeMatches(file, paths[k])
    ensures TreePick(file, paths).Some? ==>
      exists k :: (0 <= k < |paths| && paths[k] == TreePick(file, paths).value &&
                   TreeMatches(file, paths[k]) && forall j :: 0 <= j < k ==> !TreeMatches(file, paths[j]))
  {
    if paths != [] && !TreeMatches(file, paths[0]) {
      TreePickFirst(file, paths[1..]);
      if TreePick(file, paths).Some? {
        var k :| 0 <= k < |paths[1..]| && paths[1..][k] == TreePick(file, paths).value &&
          TreeMatches(file, paths[1..][k]) && forall j :: 0 <= j < k ==> !TreeMatches(file, paths[1..][j]);
        assert paths[k + 1] == paths[1..][k];
        forall j | 0 <= j < k + 1 ensures !TreeMatches(file, paths[j]) {
          if j > 0 {
            assert paths[j] == paths[1..][j - 1];
          }
        }
      } else {
        forall k | 0 <= k < |paths| ensures !TreeMatches(file, paths[k]) {
          if k > 0 {
            assert paths[k] == paths[1..][k - 1];
          }
        }
      }
    }
  }

  /** A path found by the tree fallback ends in the hint's file name. */
  lemma {:induction false} TreeMatchEndsWithName(file: string, p: string)
    requires TreeMatches(file, p)
    ensures EndsWith(p, Basename(file))
  {
    var b := Basename(file);
    if p == file {
    } else {
      assert p[|p| - |b|..] == p[|p| - |"/" + b|..][1..];
    }
  }

  // ---------------------------------------------------------------------------
  // Properties of the results

  /** The named hints, in order, with their line numbers. */
  function Named(hints: seq<Hint>): seq<(string, Option<nat>)> {
    if hints == [] then []
    else
      var rest := Named(hints[..|hints| - 1]);
      var h := hints[|hints| - 1];
      match HintName(h)
      case None => rest
      case Some(file) => rest + [(file, h.line)]
  }

  /** Results keep the order of the hints: one per named hint, carrying its file
      name and line; hints without a name are skipped. */
  lemma {:induction false} ResultsFollowHints(hints: seq<Hint>, answers: nat -> ItemAnswers,
                                              cache: GitTree.CacheState, n: nat)
    requires n <= |hints|
    ensures var rs := Fetched(hints, answers, cache, n).results;
      |rs| == |Named(hints[..n])| &&
      forall k :: 0 <= k < |rs| ==> (rs[k].file, rs[k].line) == Named(hints[..n])[k]
  {
    if n > 0 {
      ResultsFollowHints(hints, answers, cache, n - 1);
      assert hints[..n][..n - 1] == hints[..n - 1];
    }
  }

  /** Every record either carries an error and no content, or carries the resolved
      path, the excerpt, the file text and its sha; a hint no strategy resolved
      gets the not-found error. */
  predicate WellFormed(r: SourceResult) {
    (r.error.Some? ==> r.content.None? && r.fullContent.None? && r.filePath.None? && r.sha.None?) &&
    (r.error.None? ==> r.filePath.Some? && r.content.Some? && r.fullContent.Some? && r.sha.Some? &&
                       r.recentCommits.Some?)
  }

  lemma {:induction false} ResultsWellFormed(hints: seq<Hint>, answers: nat -> ItemAnswers,
                                             cache: GitTree.CacheState, n: nat)
    requires n <= |hints|
    ensures forall r :: r in Fetched(hints, answers, cache, n).results ==> WellFormed(r)
  {
    if n > 0 {
      ResultsWellFormed(hints, answers, cache, n - 1);
    }
  }

  /** An unresolved hint yields exactly the not-found record. */
  lemma {:induction false} UnresolvedIsNotFound(p: Progress, h: Hint, ans: ItemAnswers)
    requires HintName(h).Some?
    requires !Truthy(ResolveSpec(HintName(h).value, ans, p.cache).path)
    ensures var r := Step(p, h, ans).results[|p.results|];
      r.error == Some(NotFound) && r.content.None? && r.fullContent.None?
  {
  }

  /** A found record's excerpt is the window around its line of the file text. */
  lemma {:induction false} FoundRecordExcerpt(file: string, line: Option<nat>, path: string, ans: ItemAnswers)
    requires ans.blob.Ok?
    ensures var r := FoundRecord(file, line, path, ans);
      r.error.None? && r.filePath == Some(path) && r.fullContent == Some(ans.blob.value.content) &&
      r.content == Some(ExcerptText(Split(ans.blob.value.content, '\n'), line))
  {
  }

  /** A commit line holds no newline when the author name and date hold none. */
  lemma {:induction false} CommitLineSingle(c: Commit)
    requires '\n' !in c.authorName && '\n' !in c.authorDate
    ensures '\n' !in CommitLine(c)
  {
    var first, date := Split(c.message, '\n')[0], Prefix(c.authorDate, 10);
    assert '\n' !in first;
    assert forall m :: 0 <= m < |date| ==> date[m] == c.authorDate[m];
  }

  lemma {:induction false} CommitLinesSingle(cs: seq<Commit>)
    requires forall k :: 0 <= k < |cs| ==> '\n' !in cs[k].authorName && '\n' !in cs[k].authorDate
    ensures forall k :: 0 <= k < |cs| ==> '\n' !in CommitLines(cs)[k]
  {
    if cs != [] {
      CommitLineSingle(cs[0]);
      CommitLinesSingle(cs[1..]);
      assert CommitLines(cs) == [CommitLine(cs[0])] + CommitLines(cs[1..]);
    }
  }

  /** The history has one line per commit (its first message line, author and
      date prefix) when author names and dates hold no newline. */
  lemma {:induction false} CommitHistoryLines(cs: seq<Commit>)
    requires cs != []
    requires forall k :: 0 <= k < |cs| ==> '\n' !in cs[k].authorName && '\n' !in cs[k].authorDate
    ensures Split(CommitHistory(Ok(cs)), '\n') == CommitLines(cs)
  {
    CommitLinesSingle(cs);
    JoinSplit(CommitLines(cs), '\n');
  }
}

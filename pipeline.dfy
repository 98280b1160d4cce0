/** crashAnalysisPipeline (functions/index.js:857-912): for a new Crashlytics
    issue, post the first alert, extract file hints from the issue, read the
    files from GitHub when there are hints, ask for an analysis (once more if
    the first answer is empty) and post the analysis thread.

    The Slack alert's thread id, the GitHub answers and the analysis answers
    are parameters; the tree cache is the shared `GitTree.TreeCache` object. */
module Pipeline {
  import opened Text
  import CrashParser
  import GitTree
  import SourceResolver
  import Notification

  /** How the analysis answers are given: the answer of attempt 0 and of attempt 1. */
  type Analyses = nat -> Option<string>

  /** What one run of the pipeline did. */
  datatype PipelineRun =
    | NoIssue
    | NoThread
    | Posted(threadTs: string, hints: seq<CrashParser.FileLocation>, results: seq<SourceResolver.SourceResult>,
             attempts: nat, analysis: Option<string>, message: Notification.ThreadMessage)

  datatype PipelineStep = PipelineStep(run: PipelineRun, cache: GitTree.CacheState)

  /** `fileInfo` handed to fetchSourceFromGithub: each location as an item with a file and a line. */
  function HintsOf(locs: seq<CrashParser.FileLocation>): (hints: seq<SourceResolver.Hint>)
    ensures |hints| == |locs|
    ensures forall k :: 0 <= k < |locs| ==> hints[k] == SourceResolver.FromLocation(locs[k])
  {
    if locs == [] then [] else [SourceResolver.FromLocation(locs[0])] + HintsOf(locs[1..])
  }

  /** The analysis step: the first answer when it is truthy, otherwise a second
      attempt's answer; and how many attempts were made. */
  function AnalysisSpec(analyze: Analyses): (Option<string>, nat) {
    if Truthy(analyze(0)) then (analyze(0), 1) else (analyze(1), 2)
  }

  function PipelineSpec(issue: Option<CrashParser.Issue>, threadTs: Option<string>,
                        answers: nat -> SourceResolver.ItemAnswers, cache: GitTree.CacheState,
                        analyze: Analyses): PipelineStep {
    if issue.None? then PipelineStep(NoIssue, cache)
    else if !Truthy(threadTs) then PipelineStep(NoThread, cache)
    else
      var hints := CrashParser.FileHints(issue.value);
      var fetched := if |hints| > 0 then SourceResolver.Fetched(HintsOf(hints), answers, cache, |hints|)
                     else SourceResolver.Progress([], cache);
      var (analysis, attempts) := AnalysisSpec(analyze);
      PipelineStep(Posted(threadTs.value, hints, fetched.results, attempts, analysis,
                          Notification.ThreadMessageSpec(analysis, issue.value, fetched.results)),
                   fetched.cache)
  }

  /** analyzeWithClaude, and once more when its answer is empty. */
  method AnalyzeWithRetry(analyze: Analyses) returns (analysis: Option<string>, attempts: nat)
    ensures (analysis, attempts) == AnalysisSpec(analyze)
  {
    analysis := analyze(0);
    attempts := 1;
    if !Truthy(analysis) {
      analysis := analyze(1);
      attempts := 2;
    }
  }

  method CrashAnalysisPipeline(issue: Option<CrashParser.Issue>, threadTs: Option<string>,
                               answers: nat -> SourceResolver.ItemAnswers, cache: GitTree.TreeCache,
                               analyze: Analyses) returns (run: PipelineRun)
    modifies cache
    ensures PipelineStep(run, cache.State()) == PipelineSpec(issue, threadTs, answers, old(cache.State()), analyze)
  {
    if issue.None? {
      return NoIssue;
    }
    if !Truthy(threadTs) {
      return NoThread;
    }
    var fileInfo := CrashParser.ExtractFileInfoFromIssue(issue.value);
    var sourceResults: seq<SourceResolver.SourceResult> := [];
    if |fileInfo| > 0 {
      sourceResults := SourceResolver.FetchSourceFromGithub(HintsOf(fileInfo), answers, cache);
    }
    var analysis, attempts := AnalyzeWithRetry(analyze);
    var message := Notification.PostAnalysisThread(analysis, issue.value, sourceResults);
    run := Posted(threadTs.value, fileInfo, sourceResults, attempts, analysis, message);
  }

  /** The analysis is asked for at most twice, a second time exactly when the first
      answer is empty, and the thread uses the first non-empty answer, if any. */
  lemma {:induction false} SingleRetry(issue: CrashParser.Issue, threadTs: string,
                                       answers: nat -> SourceResolver.ItemAnswers, cache: GitTree.CacheState,
                                       analyze: Analyses)
    requires threadTs != ""
    ensures var run := PipelineSpec(Some(issue), Some(threadTs), answers, cache, analyze).run;
      run.Posted? && 1 <= run.attempts <= 2 &&
      (run.attempts == 2 <==> !Truthy(analyze(0))) &&
      run.analysis == (if Truthy(analyze(0)) then analyze(0) else analyze(1)) &&
      Notification.AnalysisText(run.analysis) ==
        (if Truthy(analyze(0)) then analyze(0).value
         else if Truthy(analyze(1)) then analyze(1).value
         else Notification.DefaultAnalysis)
  {
  }

  /** Without an issue or without the first alert nothing else happens: no file is
      read and the cache is left as it was. */
  lemma {:induction false} StopsEarly(issue: Option<CrashParser.Issue>, threadTs: Option<string>,
                                      answers: nat -> SourceResolver.ItemAnswers, cache: GitTree.CacheState,
                                      analyze: Analyses)
    requires issue.None? || !Truthy(threadTs)
    ensures var step := PipelineSpec(issue, threadTs, answers, cache, analyze);
      !step.run.Posted? && step.cache == cache
  {
  }

  /** GitHub is read only when the issue yields file hints; without hints the
      thread has no links and no fix button, and the cache is untouched. */
  lemma {:induction false} NoHintsNoLookup(issue: CrashParser.Issue, threadTs: string,
                                           answers: nat -> SourceResolver.ItemAnswers, cache: GitTree.CacheState,
                                           analyze: Analyses)
    requires threadTs != ""
    requires CrashParser.FileHints(issue) == []
    ensures var step := PipelineSpec(Some(issue), Some(threadTs), answers, cache, analyze);
      step.run.Posted? && step.run.results == [] && step.cache == cache &&
      step.run.message.fileLinks.None? && step.run.message.buttons == [Notification.CreateGithubIssue]
  {
    var step := PipelineSpec(Some(issue), Some(threadTs), answers, cache, analyze);
    Notification.FixButtonIff(step.run.analysis, issue, []);
    Notification.LinksFollowResults(step.run.analysis, issue, []);
  }

  /** With hints, the records posted follow the hints one by one, in order. */
  lemma {:induction false} ResultsMatchHints(issue: CrashParser.Issue, threadTs: string,
                                             answers: nat -> SourceResolver.ItemAnswers, cache: GitTree.CacheState,
                                             analyze: Analyses)
    requires threadTs != ""
    ensures var run := PipelineSpec(Some(issue), Some(threadTs), answers, cache, analyze).run;
      run.Posted? && run.hints == CrashParser.FileHints(issue) &&
      |run.results| == |run.hints| &&
      forall k :: 0 <= k < |run.hints| ==> run.results[k].file == run.hints[k].file && run.results[k].line == run.hints[k].line
  {
    var hints := CrashParser.FileHints(issue);
    if |hints| > 0 {
      CrashParser.FileHintsShape(issue);
      assert forall e :: e in hints ==> |e.file| >= 6;
      FetchedFollowsLocations(hints, answers, cache);
    }
  }

  /** Fetching for parsed locations gives one record per location, carrying its
      file name and line. */
  lemma {:induction false} FetchedFollowsLocations(locs: seq<CrashParser.FileLocation>,
                                                   answers: nat -> SourceResolver.ItemAnswers, cache: GitTree.CacheState)
    requires forall e :: e in locs ==> e.file != []
    ensures var rs := SourceResolver.Fetched(HintsOf(locs), answers, cache, |locs|).results;
      |rs| == |locs| && forall k :: 0 <= k < |locs| ==> rs[k].file == locs[k].file && rs[k].line == locs[k].line
  {
    var hs := HintsOf(locs);
    SourceResolver.ResultsFollowHints(hs, answers, cache, |hs|);
    assert hs[..|hs|] == hs;
    NamedHints(locs);
  }

  /** Every parsed location has a non-empty file name, so every hint is named. */
  lemma {:induction false} NamedHints(locs: seq<CrashParser.FileLocation>)
    requires forall e :: e in locs ==> e.file != []
    ensures var named := SourceResolver.Named(HintsOf(locs));
      |named| == |locs| && forall k :: 0 <= k < |locs| ==> named[k] == (locs[k].file, locs[k].line)
  {
    if locs != [] {
      var n := |locs| - 1;
      var init := locs[..n];
      var hs := HintsOf(locs);
      NamedHints(init);
      assert hs[..n] == HintsOf(init);
      assert locs[n] in locs;
      var last := (locs[n].file, locs[n].line);
      assert SourceResolver.HintName(hs[n]) == Some(locs[n].file);
      assert SourceResolver.Named(hs) == SourceResolver.Named(HintsOf(init)) + [last];
    }
  }
}

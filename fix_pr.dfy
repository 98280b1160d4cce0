/** createFixPR (functions/index.js:536-665): open a pull request carrying the
    generated fixes. A branch `fix/crashlytics-{id}-{timestamp}` is cut from the
    default branch, each fix is committed to it in order, the pull request is
    opened and labelled. Any failure deletes the branch (best effort) and is
    passed on to the caller.

    The repository is a `Repository` object holding branches, pull requests and
    labels; what each GitHub request answers is given by `PrAnswers`, and the
    clock by a timestamp parameter. */
module FixPr {
  import opened Text
  import Config
  import CrashParser
  import SourceResolver

  const BranchPrefix: string := "fix/crashlytics-"
  const UnknownId: string := "unknown"
  const IdLimit: nat := 20
  const TitlePrefix: string := "[Crashlytics Fix] "
  const NotAvailable: string := "N/A"
  const DefaultDescription: string := "Claude AI가 분석한 크래시 원인을 기반으로 수정 코드를 생성했습니다."
  const LabelNames: seq<string> := ["bug", "crashlytics", "ai-fix"]

  /** One entry of `fixData.fixes`. */
  datatype Fix = Fix(filePath: string, fixedCode: string, summary: string)

  /** The fields of `fixData` the function reads. */
  datatype FixData = FixData(prTitle: Option<string>, prDescription: Option<string>, fixes: seq<Fix>)

  /** One createOrUpdateFileContents request that went through: the file, the
      commit message, the (decoded) content and the blob sha it replaced, if one
      was sent. */
  datatype FileWrite = FileWrite(path: string, message: string, content: string, sha: Option<string>)

  /** A branch: the commit it was cut from and the file writes committed to it. */
  datatype Branch = Branch(base: string, writes: seq<FileWrite>)

  /** The sections of the pull request body that depend on the inputs. */
  datatype PrBody = PrBody(error: string, detail: string, appVersion: string, summaries: string, description: string)

  /** What the pulls.create request asked for and what GitHub answered. */
  datatype PullRequest = PullRequest(number: nat, url: string, title: string, head: string, base: string, body: PrBody)

  datatype RepoState = RepoState(branches: map<string, Branch>, pulls: seq<PullRequest>, labels: map<nat, seq<string>>)

  datatype Outcome = Done | Failed(message: string)

  /** GitHub's answer to pulls.create. */
  datatype Created = Created(number: nat, url: string)

  /** The answers of the requests, in the order they are made:
      getRef (the default branch's head sha), createRef, and per fix (by its
      index) getContent on the new branch, the first write and the write without
      a sha made after either of those failed; then pulls.create, addLabels and,
      on failure, deleteRef. */
  datatype PrAnswers = PrAnswers(
    baseSha: Result<string>,
    createRef: Outcome,
    lookup: nat -> Result<string>,
    write: nat -> Outcome,
    rewrite: nat -> Outcome,
    pull: Result<Created>,
    addLabels: Outcome,
    deleteRef: Outcome)

  // ---------------------------------------------------------------------------
  // Branch name

  /** `s.replace(/[^a-zA-Z0-9]/g, "")` */
  function AlnumOnly(s: string): (r: string)
    ensures |r| <= |s|
    ensures forall k :: 0 <= k < |r| ==> IsAlnum(r[k])
  {
    if s == [] then [] else (if IsAlnum(s[0]) then [s[0]] else []) + AlnumOnly(s[1..])
  }

  /** `(issue.id || "unknown").replace(/[^a-zA-Z0-9]/g, "").slice(0, 20)` */
  function SanitizeId(id: Option<string>): string {
    Prefix(AlnumOnly(OrElse(id, UnknownId)), IdLimit)
  }

  /** `fix/crashlytics-${issueId}-${timestamp}` */
  function BranchName(issueId: string, timestamp: nat): string {
    BranchPrefix + issueId + "-" + NatToString(timestamp)
  }

  /** The sanitised id holds only ASCII letters and digits, at most 20 of them: the
      first 20 of those in the id, or in "unknown" when the id is missing or empty. */
  lemma {:induction false} SanitizeIdShape(id: Option<string>)
    ensures var r := SanitizeId(id);
      |r| <= IdLimit &&
      (forall k :: 0 <= k < |r| ==> IsAlnum(r[k])) &&
      r == Prefix(AlnumOnly(if Truthy(id) then id.value else UnknownId), IdLimit)
  {
  }

  /** An id of at most 20 letters and digits is kept as it is; a missing or empty
      one becomes "unknown". */
  lemma {:induction false} SanitizeIdKeeps(id: Option<string>)
    ensures Truthy(id) && |id.value| <= IdLimit && (forall k :: 0 <= k < |id.value| ==> IsAlnum(id.value[k])) ==>
      SanitizeId(id) == id.value
    ensures !Truthy(id) ==> SanitizeId(id) == UnknownId
  {
    if Truthy(id) && (forall k :: 0 <= k < |id.value| ==> IsAlnum(id.value[k])) {
      AlnumOnlyKeeps(id.value);
    }
    if !Truthy(id) {
      AlnumOnlyKeeps(UnknownId);
    }
  }

  lemma {:induction false} AlnumOnlyKeeps(s: string)
    requires forall k :: 0 <= k < |s| ==> IsAlnum(s[k])
    ensures AlnumOnly(s) == s
  {
    if s != [] {
      AlnumOnlyKeeps(s[1..]);
    }
  }

  /** Distinct (sanitised id, timestamp) pairs give distinct branch names: the id
      holds no '-', so the name determines both. */
  lemma {:induction false} BranchNameInjective(id1: string, ts1: nat, id2: string, ts2: nat)
    requires forall k :: 0 <= k < |id1| ==> IsAlnum(id1[k])
    requires forall k :: 0 <= k < |id2| ==> IsAlnum(id2[k])
    requires BranchName(id1, ts1) == BranchName(id2, ts2)
    ensures id1 == id2 && ts1 == ts2
  {
    var n1, n2 := BranchName(id1, ts1), BranchName(id2, ts2);
    var p := |BranchPrefix|;
    IdEndsAtDash(id1, ts1);
    IdEndsAtDash(id2, ts2);
    assert id1 == n1[p..p + |id1|] == n2[p..p + |id2|] == id2;
    assert NatToString(ts1) == n1[p + |id1| + 1..] == n2[p + |id2| + 1..] == NatToString(ts2);
    NatToStringInjective(ts1, ts2);
  }

  /** The first '-' after the prefix closes the id. */
  lemma {:induction false} IdEndsAtDash(id: string, ts: nat)
    requires forall k :: 0 <= k < |id| ==> IsAlnum(id[k])
    ensures IndexOfFrom(BranchName(id, ts), '-', |BranchPrefix|) == |BranchPrefix| + |id|
  {
    var n, p := BranchName(id, ts), |BranchPrefix|;
    assert n[p + |id|] == '-';
    forall m | p <= m < p + |id| ensures n[m] != '-' {
      assert n[m] == id[m - p];
    }
  }

  // ---------------------------------------------------------------------------
  // Committing the fixes

  /** `sourceResults.find((s) => s.filePath === fix.filePath)` */
  function FindSource(sources: seq<SourceResolver.SourceResult>, path: string): (r: Option<SourceResolver.SourceResult>)
    ensures r.Some? ==> r.value in sources && r.value.filePath == Some(path)
    ensures r.None? ==> forall s :: s in sources ==> s.filePath != Some(path)
  {
    if sources == [] then None
    else if sources[0].filePath == Some(path) then Some(sources[0])
    else FindSource(sources[1..], path)
  }

  /** `find` returns the first record with the path. */
  lemma {:induction false} FindSourceFirst(sources: seq<SourceResolver.SourceResult>, path: string)
    ensures FindSource(sources, path).Some? ==>
      exists i :: (0 <= i < |sources| && FindSource(sources, path).value == sources[i] &&
                   forall k :: 0 <= k < i ==> sources[k].filePath != Some(path))
  {
    if sources != [] && sources[0].filePath != Some(path) {
      FindSourceFirst(sources[1..], path);
      if FindSource(sources, path).Some? {
        var i :| 0 <= i < |sources[1..]| && FindSource(sources[1..], path).value == sources[1..][i] &&
          forall k :: 0 <= k < i ==> sources[1..][k].filePath != Some(path);
        assert sources[i + 1] == sources[1..][i];
        forall k | 0 <= k < i + 1 ensures sources[k].filePath != Some(path) {
          if k > 0 {
            assert sources[k] == sources[1..][k - 1];
          }
        }
      }
    }
  }

  /** The sha the source results already know for a file (`sourceFile && sourceFile.sha`). */
  function KnownSha(sources: seq<SourceResolver.SourceResult>, path: string): Option<string> {
    var found := FindSource(sources, path);
    if found.Some? && Truthy(found.value.sha) then found.value.sha else None
  }

  /** What committing fix number `k` did: the write that went through, or the
      error that escaped. With a known sha, one write with it; otherwise the sha
      looked up on the new branch and a write with it, and when either of those
      fails, a write with no sha. */
  function CommitFix(branch: string, fix: Fix, k: nat, sources: seq<SourceResolver.SourceResult>, ans: PrAnswers): (r: Result<FileWrite>)
    ensures r.Ok? ==> r.value.path == fix.filePath && r.value.content == fix.fixedCode &&
                      r.value.message == "fix: " + fix.summary
  {
    var message := "fix: " + fix.summary;
    var known := KnownSha(sources, fix.filePath);
    if known.Some? then
      match ans.write(k)
      case Done => Ok(FileWrite(fix.filePath, message, fix.fixedCode, known))
      case Failed(m) => Err(m)
    else if ans.lookup(k).Ok? && ans.write(k).Done? then
      Ok(FileWrite(fix.filePath, message, fix.fixedCode, Some(ans.lookup(k).value)))
    else
      match ans.rewrite(k)
      case Done => Ok(FileWrite(fix.filePath, message, fix.fixedCode, None))
      case Failed(m) => Err(m)
  }

  /** The writes of the first `n` fixes, stopping at the first error. */
  datatype CommitRun = CommitRun(writes: seq<FileWrite>, failure: Option<string>)

  function CommitsUpTo(branch: string, fixes: seq<Fix>, sources: seq<SourceResolver.SourceResult>, ans: PrAnswers, n: nat): CommitRun
    requires n <= |fixes|
  {
    if n == 0 then CommitRun([], None)
    else
      var prev := CommitsUpTo(branch, fixes, sources, ans, n - 1);
      if prev.failure.Some? then prev
      else
        match CommitFix(branch, fixes[n - 1], n - 1, sources, ans)
        case Ok(w) => CommitRun(prev.writes + [w], None)
        case Err(m) => CommitRun(prev.writes, Some(m))
  }

  /** The writes go through in the order of the fixes, one per fix, until the first
      error; without an error every fix was written. */
  lemma {:induction false} CommitsInOrder(branch: string, fixes: seq<Fix>, sources: seq<SourceResolver.SourceResult>, ans: PrAnswers, n: nat)
    requires n <= |fixes|
    ensures var run := CommitsUpTo(branch, fixes, sources, ans, n);
      |run.writes| <= n &&
      (run.failure.None? ==> |run.writes| == n) &&
      (run.failure.Some? ==> |run.writes| < n && CommitFix(branch, fixes[|run.writes|], |run.writes|, sources, ans) == Err(run.failure.value)) &&
      forall k :: 0 <= k < |run.writes| ==> CommitFix(branch, fixes[k], k, sources, ans) == Ok(run.writes[k])
  {
    if n > 0 {
      CommitsInOrder(branch, fixes, sources, ans, n - 1);
    }
  }

  /** Once a write has failed, later fixes are not tried. */
  lemma {:induction false} FailureStops(branch: string, fixes: seq<Fix>, sources: seq<SourceResolver.SourceResult>, ans: PrAnswers, n: nat, m: nat)
    requires n <= m <= |fixes|
    requires CommitsUpTo(branch, fixes, sources, ans, n).failure.Some?
    ensures CommitsUpTo(branch, fixes, sources, ans, m) == CommitsUpTo(branch, fixes, sources, ans, n)
    decreases m - n
  {
    if n < m {
      FailureStops(branch, fixes, sources, ans, n, m - 1);
    }
  }

  /** The sha sent with a fix: the known one when the source results hold a sha for
      that path; otherwise the one looked up on the branch when the lookup and the
      write with it succeed; otherwise none. */
  lemma {:induction false} ShaChoice(branch: string, fix: Fix, k: nat, sources: seq<SourceResolver.SourceResult>, ans: PrAnswers)
    requires CommitFix(branch, fix, k, sources, ans).Ok?
    ensures var sha := CommitFix(branch, fix, k, sources, ans).value.sha;
      (exists s :: s in sources && s.filePath == Some(fix.filePath) && Truthy(s.sha)) ||
      sha == (if ans.lookup(k).Ok? && ans.write(k).Done? then Some(ans.lookup(k).value) else None)
    ensures var sha := CommitFix(branch, fix, k, sources, ans).value.sha;
      FindSource(sources, fix.filePath).Some? && Truthy(FindSource(sources, fix.filePath).value.sha) ==>
        sha == FindSource(sources, fix.filePath).value.sha
  {
  }

  // ---------------------------------------------------------------------------
  // The pull request

  /** `- \`${f.filePath}\`: ${f.summary}` for each fix, one per line. */
  function SummaryLines(fixes: seq<Fix>): (r: seq<string>)
    ensures |r| == |fixes|
    ensures forall k :: 0 <= k < |fixes| ==> r[k] == "- `" + fixes[k].filePath + "`: " + fixes[k].summary
  {
    if fixes == [] then [] else ["- `" + fixes[0].filePath + "`: " + fixes[0].summary] + SummaryLines(fixes[1..])
  }

  /** `${issue.title}` in a template: a missing title prints as "undefined". */
  function TemplateText(s: Option<string>): string {
    if s.Some? then s.value else "undefined"
  }

  /** `fixData.prTitle || \`[Crashlytics Fix] ${issue.title}\`` */
  function PrTitle(issue: CrashParser.Issue, fixData: FixData): string {
    OrElse(fixData.prTitle, TitlePrefix + TemplateText(issue.title))
  }

  function Body(issue: CrashParser.Issue, fixData: FixData): PrBody {
    PrBody(OrElse(issue.title, NotAvailable), OrElse(issue.subtitle, NotAvailable), OrElse(issue.appVersion, NotAvailable),
           Join(SummaryLines(fixData.fixes), "\n"), OrElse(fixData.prDescription, DefaultDescription))
  }

  /** The result of createFixPR and the repository it leaves. */
  datatype PrRun = PrRun(result: Result<PullRequest>, next: RepoState)

  /** The try block: the steps up to the first error. */
  function AttemptSpec(st: RepoState, branch: string, issue: CrashParser.Issue, fixData: FixData,
                       sources: seq<SourceResolver.SourceResult>, ans: PrAnswers): PrRun {
    match ans.baseSha
    case Err(m) => PrRun(Err(m), st)
    case Ok(sha) =>
      match ans.createRef
      case Failed(m) => PrRun(Err(m), st)
      case Done =>
        var run := CommitsUpTo(branch, fixData.fixes, sources, ans, |fixData.fixes|);
        var st1 := st.(branches := st.branches[branch := Branch(sha, run.writes)]);
        if run.failure.Some? then PrRun(Err(run.failure.value), st1)
        else
          match ans.pull
          case Err(m) => PrRun(Err(m), st1)
          case Ok(created) =>
            var pr := PullRequest(created.number, created.url, PrTitle(issue, fixData), branch,
                                  Config.DefaultBranch, Body(issue, fixData));
            var st2 := st1.(pulls := st1.pulls + [pr]);
            PrRun(Ok(pr), if ans.addLabels.Done? then st2.(labels := st2.labels[pr.number := LabelNames]) else st2)
  }

  /** createFixPR: the attempt, and on its failure the branch deletion and the same error. */
  function CreateFixPrSpec(st: RepoState, issue: CrashParser.Issue, fixData: FixData,
                           sources: seq<SourceResolver.SourceResult>, timestamp: nat, ans: PrAnswers): PrRun {
    var branch := BranchName(SanitizeId(issue.id), timestamp);
    var attempt := AttemptSpec(st, branch, issue, fixData, sources, ans);
    if attempt.result.Ok? || ans.deleteRef.Failed? then attempt
    else attempt.(next := attempt.next.(branches := attempt.next.branches - {branch}))
  }

  /** On success: the new branch, cut from the default branch's head, holds one
      write per fix in order; the pull request goes from it into the default
      branch and is the only one added; no other branch changes. */
  lemma {:induction false} SuccessShape(st: RepoState, issue: CrashParser.Issue, fixData: FixData,
                                        sources: seq<SourceResolver.SourceResult>, timestamp: nat, ans: PrAnswers)
    ensures var run := CreateFixPrSpec(st, issue, fixData, sources, timestamp, ans);
      var branch := BranchName(SanitizeId(issue.id), timestamp);
      run.result.Ok? ==>
        ans.baseSha.Ok? && ans.pull.Ok? &&
        branch in run.next.branches &&
        run.next.branches[branch].base == ans.baseSha.value &&
        |run.next.branches[branch].writes| == |fixData.fixes| &&
        (forall k :: 0 <= k < |fixData.fixes| ==>
          CommitFix(branch, fixData.fixes[k], k, sources, ans) == Ok(run.next.branches[branch].writes[k])) &&
        (forall b :: b != branch ==> (b in run.next.branches <==> b in st.branches)) &&
        (forall b :: b != branch && b in st.branches ==> run.next.branches[b] == st.branches[b]) &&
        run.next.pulls == st.pulls + [run.result.value] &&
        run.result.value.head == branch && run.result.value.base == Config.DefaultBranch &&
        run.result.value.number == ans.pull.value.number
  {
    var branch := BranchName(SanitizeId(issue.id), timestamp);
    CommitsInOrder(branch, fixData.fixes, sources, ans, |fixData.fixes|);
  }

  /** On failure: the error is the first one raised, no pull request or label is
      added, the branch is gone when the deletion went through, and no other branch
      changes. */
  lemma {:induction false} FailureRollsBack(st: RepoState, issue: CrashParser.Issue, fixData: FixData,
                                            sources: seq<SourceResolver.SourceResult>, timestamp: nat, ans: PrAnswers)
    ensures var run := CreateFixPrSpec(st, issue, fixData, sources, timestamp, ans);
      var branch := BranchName(SanitizeId(issue.id), timestamp);
      var commits := CommitsUpTo(branch, fixData.fixes, sources, ans, |fixData.fixes|);
      run.result.Err? ==>
        run.result.message == (if ans.baseSha.Err? then ans.baseSha.message
                               else if ans.createRef.Failed? then ans.createRef.message
                               else if commits.failure.Some? then commits.failure.value
                               else ans.pull.message) &&
        run.next.pulls == st.pulls && run.next.labels == st.labels &&
        (ans.deleteRef.Done? ==> branch !in run.next.branches) &&
        (forall b :: b != branch ==> (b in run.next.branches <==> b in st.branches)) &&
        (forall b :: b != branch && b in st.branches ==> run.next.branches[b] == st.branches[b])
  {
  }

  /** Labelling is best effort: whether it works changes neither the result nor
      the branches and pull requests. */
  lemma {:induction false} LabelsBestEffort(st: RepoState, issue: CrashParser.Issue, fixData: FixData,
                                            sources: seq<SourceResolver.SourceResult>, timestamp: nat, ans: PrAnswers)
    ensures var r1 := CreateFixPrSpec(st, issue, fixData, sources, timestamp, ans.(addLabels := Done));
      var r2 := CreateFixPrSpec(st, issue, fixData, sources, timestamp, ans);
      r1.result == r2.result && r1.next.branches == r2.next.branches && r1.next.pulls == r2.next.pulls &&
      (r1.result.Ok? ==> r1.next.labels[r1.result.value.number] == LabelNames)
  {
    AttemptIgnoresLabels(st, BranchName(SanitizeId(issue.id), timestamp), issue, fixData, sources, ans);
  }

  lemma {:induction false} AttemptIgnoresLabels(st: RepoState, branch: string, issue: CrashParser.Issue, fixData: FixData,
                                                sources: seq<SourceResolver.SourceResult>, ans: PrAnswers)
    ensures var r1 := AttemptSpec(st, branch, issue, fixData, sources, ans.(addLabels := Done));
      var r2 := AttemptSpec(st, branch, issue, fixData, sources, ans);
      r1.result == r2.result && r1.next.branches == r2.next.branches && r1.next.pulls == r2.next.pulls &&
      (r1.result.Ok? ==> r1.next.labels[r1.result.value.number] == LabelNames)
  {
    var a1 := ans.(addLabels := Done);
    assert a1.baseSha == ans.baseSha && a1.createRef == ans.createRef && a1.pull == ans.pull;
    CommitsIgnoreLabels(branch, fixData.fixes, sources, ans, |fixData.fixes|);
  }

  lemma {:induction false} CommitsIgnoreLabels(branch: string, fixes: seq<Fix>, sources: seq<SourceResolver.SourceResult>, ans: PrAnswers, n: nat)
    requires n <= |fixes|
    ensures CommitsUpTo(branch, fixes, sources, ans.(addLabels := Done), n) == CommitsUpTo(branch, fixes, sources, ans, n)
  {
    if n > 0 {
      CommitsIgnoreLabels(branch, fixes, sources, ans, n - 1);
      CommitFixIgnoresLabels(branch, fixes[n - 1], n - 1, sources, ans);
    }
  }

  /** Committing one fix does not look at the label answer. */
  lemma {:induction false} CommitFixIgnoresLabels(branch: string, fix: Fix, k: nat, sources: seq<SourceResolver.SourceResult>, ans: PrAnswers)
    ensures CommitFix(branch, fix, k, sources, ans.(addLabels := Done)) == CommitFix(branch, fix, k, sources, ans)
  {
    var ans' := ans.(addLabels := Done);
    assert ans'.write == ans.write && ans'.lookup == ans.lookup && ans'.rewrite == ans.rewrite;
  }

  // ---------------------------------------------------------------------------
  // The repository

  class Repository {
    var branches: map<string, Branch>
    var pulls: seq<PullRequest>
    var labels: map<nat, seq<string>>

    constructor (branches0: map<string, Branch>)
      ensures branches == branches0 && pulls == [] && labels == map[]
    {
      branches := branches0;
      pulls := [];
      labels := map[];
    }

    function State(): RepoState
      reads this
    {
      RepoState(branches, pulls, labels)
    }

    /** createFixPR against this repository. */
    method CreateFixPr(issue: CrashParser.Issue, fixData: FixData, sources: seq<SourceResolver.SourceResult>,
                       timestamp: nat, ans: PrAnswers) returns (result: Result<PullRequest>)
      modifies this
      ensures PrRun(result, State()) == CreateFixPrSpec(old(State()), issue, fixData, sources, timestamp, ans)
    {
      var issueId := SanitizeId(issue.id);
      var branch := BranchName(issueId, timestamp);
      result := Attempt(branch, issue, fixData, sources, ans);
      if result.Err? && ans.deleteRef.Done? {
        branches := branches - {branch};
      }
    }

    /** The try block of createFixPR. */
    method Attempt(branch: string, issue: CrashParser.Issue, fixData: FixData,
                   sources: seq<SourceResolver.SourceResult>, ans: PrAnswers) returns (result: Result<PullRequest>)
      modifies this
      ensures PrRun(result, State()) == AttemptSpec(old(State()), branch, issue, fixData, sources, ans)
    {
      if ans.baseSha.Err? {
        return Err(ans.baseSha.message);
      }
      var baseSha := ans.baseSha.value;
      if ans.createRef.Failed? {
        return Err(ans.createRef.message);
      }
      branches := branches[branch := Branch(baseSha, [])];
      var failure := CommitFixes(branch, fixData.fixes, sources, ans);
      if failure.Some? {
        return Err(failure.value);
      }
      if ans.pull.Err? {
        return Err(ans.pull.message);
      }
      var pr := PullRequest(ans.pull.value.number, ans.pull.value.url, PrTitle(issue, fixData), branch,
                            Config.DefaultBranch, Body(issue, fixData));
      pulls := pulls + [pr];
      if ans.addLabels.Done? {
        labels := labels[pr.number := LabelNames];
      }
      result := Ok(pr);
    }

    /** The commit loop: each fix written to the branch in turn, stopping at the
        first error, which is returned. */
    method CommitFixes(branch: string, fixes: seq<Fix>, sources: seq<SourceResolver.SourceResult>, ans: PrAnswers)
      returns (failure: Option<string>)
      requires branch in branches && branches[branch].writes == []
      modifies this
      ensures var run := CommitsUpTo(branch, fixes, sources, ans, |fixes|);
        failure == run.failure &&
        branches == old(branches)[branch := Branch(old(branches)[branch].base, run.writes)] &&
        pulls == old(pulls) && labels == old(labels)
    {
      var base := branches[branch].base;
      var k := 0;
      failure := None;
      while k < |fixes|
        invariant k <= |fixes|
        invariant CommitsUpTo(branch, fixes, sources, ans, k).failure.None?
        invariant branches == old(branches)[branch := Branch(base, CommitsUpTo(branch, fixes, sources, ans, k).writes)]
        invariant pulls == old(pulls) && labels == old(labels)
      {
        var written := CommitFix(branch, fixes[k], k, sources, ans);
        if written.Err? {
          failure := Some(written.message);
          assert CommitsUpTo(branch, fixes, sources, ans, k + 1).failure == failure;
          FailureStops(branch, fixes, sources, ans, k + 1, |fixes|);
          return;
        }
        branches := branches[branch := Branch(base, branches[branch].writes + [written.value])];
        k := k + 1;
      }
    }
  }
}

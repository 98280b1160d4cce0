/** postAnalysisThread (functions/index.js:738-852): the thread reply carrying the
    analysis. The analysis (or a default text) is cut into section-sized chunks;
    links to the source files and the data behind the buttons are built only from
    the records that were read without error and have a path; the "fix PR"
    button is offered only when there is such a record. */
module Notification {
  import opened Text
  import Config
  import CrashParser
  import SourceResolver

  const DefaultAnalysis: string := "분석을 수행할 수 없었습니다. 데이터가 부족합니다."

  /** A section block holds at most 3000 characters; 2900 leaves a margin. */
  const SlackBlockLimit: nat := 2900

  const UnknownCrash: string := "Unknown crash"

  /** `analysis || default` */
  function AnalysisText(analysis: Option<string>): (r: string)
    ensures r != []
    ensures Truthy(analysis) ==> r == analysis.value
    ensures !Truthy(analysis) ==> r == DefaultAnalysis
  {
    OrElse(analysis, DefaultAnalysis)
  }

  // ---------------------------------------------------------------------------
  // Chunks

  /** The chunks the stride loop pushes once `i` has reached `from`. */
  function ChunksFrom(s: string, from: nat): seq<string>
    decreases |s| - from
  {
    if from >= |s| then []
    else [s[from..if from + SlackBlockLimit < |s| then from + SlackBlockLimit else |s|]] +
         ChunksFrom(s, from + SlackBlockLimit)
  }

  /** for (i = 0; i < text.length; i += 2900) chunks.push(text.slice(i, i + 2900)) */
  method SplitAnalysis(text: string) returns (chunks: seq<string>)
    ensures chunks == ChunksFrom(text, 0)
  {
    chunks := [];
    var i := 0;
    while i < |text|
      invariant chunks + ChunksFrom(text, i) == ChunksFrom(text, 0)
      decreases |text| - i
    {
      var end := if i + SlackBlockLimit < |text| then i + SlackBlockLimit else |text|;
      assert ChunksFrom(text, i) == [text[i..end]] + ChunksFrom(text, i + SlackBlockLimit);
      chunks := chunks + [text[i..end]];
      i := i + SlackBlockLimit;
    }
  }

  function Concat(chunks: seq<string>): string {
    if chunks == [] then [] else chunks[0] + Concat(chunks[1..])
  }

  /** The chunks put back together are the text from `from` on. */
  lemma {:induction false} ChunksConcat(s: string, from: nat)
    requires from <= |s|
    ensures Concat(ChunksFrom(s, from)) == s[from..]
    decreases |s| - from
  {
    if from < |s| {
      var end := if from + SlackBlockLimit < |s| then from + SlackBlockLimit else |s|;
      if end < |s| {
        ChunksConcat(s, end);
      }
      assert ChunksFrom(s, from)[1..] == ChunksFrom(s, from + SlackBlockLimit);
      assert s[from..] == s[from..end] + s[end..];
    }
  }

  /** Every chunk holds 1 to 2900 characters, all but the last exactly 2900, and
      there are ceil((|s| - from) / 2900) of them. */
  lemma {:induction false} ChunkSizes(s: string, from: nat)
    requires from <= |s|
    ensures var cs := ChunksFrom(s, from);
      |cs| == (|s| - from + SlackBlockLimit - 1) / SlackBlockLimit &&
      (forall k :: 0 <= k < |cs| ==> 0 < |cs[k]| <= SlackBlockLimit) &&
      (forall k :: 0 <= k < |cs| - 1 ==> |cs[k]| == SlackBlockLimit)
    decreases |s| - from
  {
    if from < |s| {
      var next := from + SlackBlockLimit;
      if next < |s| {
        ChunkSizes(s, next);
      }
      var cs := ChunksFrom(s, from);
      assert cs[1..] == ChunksFrom(s, next);
      forall k | 1 <= k < |cs| ensures 0 < |cs[k]| <= SlackBlockLimit && (k < |cs| - 1 ==> |cs[k]| == SlackBlockLimit) {
        assert cs[k] == cs[1..][k - 1];
      }
    }
  }

  // ---------------------------------------------------------------------------
  // Links and buttons

  /** `!r.error && r.filePath` */
  predicate Linkable(r: SourceResolver.SourceResult) {
    !Truthy(r.error) && Truthy(r.filePath)
  }

  /** The records links and buttons are built from, in order. */
  function LinkableResults(rs: seq<SourceResolver.SourceResult>): (out: seq<SourceResolver.SourceResult>)
    ensures forall r :: r in out ==> r in rs && Linkable(r)
    ensures forall r :: r in rs && Linkable(r) ==> r in out
    ensures forall k :: 0 <= k < |out| ==> Linkable(out[k])
  {
    if rs == [] then []
    else (if Linkable(rs[0]) then [rs[0]] else []) + LinkableResults(rs[1..])
  }

  /** The filter keeps one record as it is, or drops it. */
  lemma {:induction false} LinkableResultsOne(r: SourceResolver.SourceResult)
    ensures LinkableResults([r]) == if Linkable(r) then [r] else []
  {
    assert [r][1..] == [];
  }

  /** The filter works record by record: filtering a concatenation concatenates the
      filtered parts, so the kept records keep their order and their repeats. */
  lemma {:induction false} LinkableResultsAppend(a: seq<SourceResolver.SourceResult>, b: seq<SourceResolver.SourceResult>)
    ensures LinkableResults(a + b) == LinkableResults(a) + LinkableResults(b)
    decreases |a|
  {
    if a == [] {
      assert a + b == b;
    } else {
      var ab := a + b;
      assert ab[0] == a[0] && ab[1..] == a[1..] + b;
      LinkableResultsAppend(a[1..], b);
    }
  }

  /** `${r.line || 1}` and `${r.line || ""}` */
  function LineOr(line: Option<nat>, absent: string): string {
    if line.Some? && line.value != 0 then NatToString(line.value) else absent
  }

  /** `<https://github.com/{owner}/{repo}/blob/{branch}/{path}#L{line||1}|{path}:{line||""}>` */
  function FileLink(r: SourceResolver.SourceResult): string
    requires Linkable(r)
  {
    var path := r.filePath.value;
    "<https://github.com/" + Config.Owner + "/" + Config.Repo + "/blob/" + Config.DefaultBranch + "/" +
    path + "#L" + LineOr(r.line, "1") + "|" + path + ":" + LineOr(r.line, "") + ">"
  }

  function FileLinks(rs: seq<SourceResolver.SourceResult>): (links: seq<string>)
    requires forall k :: 0 <= k < |rs| ==> Linkable(rs[k])
    ensures |links| == |rs|
    ensures forall k :: 0 <= k < |rs| ==> links[k] == FileLink(rs[k])
  {
    if rs == [] then [] else [FileLink(rs[0])] + FileLinks(rs[1..])
  }

  /** One entry of `buttonData.files`. */
  datatype ButtonFile = ButtonFile(filePath: string, line: Option<nat>)

  function ButtonFiles(rs: seq<SourceResolver.SourceResult>): (files: seq<ButtonFile>)
    requires forall k :: 0 <= k < |rs| ==> Linkable(rs[k])
    ensures |files| == |rs|
    ensures forall k :: 0 <= k < |rs| && Linkable(rs[k]) ==> files[k] == ButtonFile(rs[k].filePath.value, rs[k].line)
  {
    if rs == [] then [] else assert Linkable(rs[0]); [ButtonFile(rs[0].filePath.value, rs[0].line)] + ButtonFiles(rs[1..])
  }

  /** The object both buttons carry (before JSON.stringify). */
  datatype ButtonData = ButtonData(title: string, subtitle: string, appVersion: string, files: seq<ButtonFile>)

  datatype Button = CreateGithubIssue | CreateFixPr

  /** What the thread reply says, without its layout: the analysis chunks, the
      file-link section (absent when empty), the button data and the buttons. */
  datatype ThreadMessage = ThreadMessage(
    chunks: seq<string>,
    fileLinks: Option<string>,
    buttonData: ButtonData,
    buttons: seq<Button>)

  function ThreadMessageSpec(analysis: Option<string>, issue: CrashParser.Issue,
                             results: seq<SourceResolver.SourceResult>): ThreadMessage {
    var linkable := LinkableResults(results);
    var links := Join(FileLinks(linkable), "\n");
    var data := ButtonData(OrElse(issue.title, UnknownCrash), OrElse(issue.subtitle, ""),
                           OrElse(issue.appVersion, ""), ButtonFiles(linkable));
    var fixable := exists k :: 0 <= k < |results| && Linkable(results[k]);
    ThreadMessage(ChunksFrom(AnalysisText(analysis), 0),
                  if links != [] then Some(links) else None,
                  data,
                  [CreateGithubIssue] + (if fixable then [CreateFixPr] else []))
  }

  /** postAnalysisThread, short of the two Slack calls. */
  method PostAnalysisThread(analysis: Option<string>, issue: CrashParser.Issue,
                            results: seq<SourceResolver.SourceResult>) returns (msg: ThreadMessage)
    ensures msg == ThreadMessageSpec(analysis, issue, results)
  {
    var analysisText := AnalysisText(analysis);
    var chunks := SplitAnalysis(analysisText);
    var fileLinks: Option<string> := None;
    var linkable := LinkableResults(results);
    if |results| > 0 {
      var links := Join(FileLinks(linkable), "\n");
      if links != [] {
        fileLinks := Some(links);
      }
    } else {
      assert linkable == [];
    }
    var data := ButtonData(OrElse(issue.title, UnknownCrash), OrElse(issue.subtitle, ""),
                           OrElse(issue.appVersion, ""), ButtonFiles(linkable));
    var buttons := [CreateGithubIssue];
    var hasFixable := AnyLinkable(results);
    if hasFixable {
      buttons := buttons + [CreateFixPr];
    }
    msg := ThreadMessage(chunks, fileLinks, data, buttons);
  }

  /** `sourceResults?.some((r) => !r.error && r.filePath)` */
  method AnyLinkable(results: seq<SourceResolver.SourceResult>) returns (found: bool)
    ensures found <==> exists k :: 0 <= k < |results| && Linkable(results[k])
  {
    var k := 0;
    while k < |results| && !Linkable(results[k])
      invariant k <= |results|
      invariant forall m :: 0 <= m < k ==> !Linkable(results[m])
    {
      k := k + 1;
    }
    found := k < |results|;
  }

  /** The fix-PR button is offered exactly when some record has no error and a path;
      the issue button always is. */
  lemma {:induction false} FixButtonIff(analysis: Option<string>, issue: CrashParser.Issue,
                                        results: seq<SourceResolver.SourceResult>)
    ensures var m := ThreadMessageSpec(analysis, issue, results);
      m.buttons[0] == CreateGithubIssue &&
      (CreateFixPr in m.buttons <==> exists r :: r in results && !Truthy(r.error) && Truthy(r.filePath))
  {
    var m := ThreadMessageSpec(analysis, issue, results);
    if exists r :: r in results && !Truthy(r.error) && Truthy(r.filePath) {
      var r :| r in results && !Truthy(r.error) && Truthy(r.filePath);
      var k :| 0 <= k < |results| && results[k] == r;
    }
  }

  /** The links section appears exactly when the fix-PR button does, and it and the
      button data name exactly the linkable records, in order. */
  lemma {:induction false} LinksFollowResults(analysis: Option<string>, issue: CrashParser.Issue,
                                              results: seq<SourceResolver.SourceResult>)
    ensures var m := ThreadMessageSpec(analysis, issue, results);
      (m.fileLinks.Some? <==> CreateFixPr in m.buttons) &&
      |m.buttonData.files| == |LinkableResults(results)| &&
      forall k :: 0 <= k < |m.buttonData.files| ==>
        m.buttonData.files[k].filePath == LinkableResults(results)[k].filePath.value &&
        !Truthy(LinkableResults(results)[k].error)
  {
    var linkable := LinkableResults(results);
    var links := FileLinks(linkable);
    FixButtonIff(analysis, issue, results);
    if linkable != [] {
      assert links[0] != [];
      JoinNonEmpty(links, "\n");
      assert linkable[0] in results;
    }
  }

  lemma {:induction false} JoinNonEmpty(pieces: seq<string>, sep: string)
    requires pieces != [] && pieces[0] != []
    ensures Join(pieces, sep) != []
  {
    if |pieces| > 1 {
      assert |Join(pieces, sep)| >= |pieces[0]|;
    }
  }

  /** The chunks of the reply put back together are the analysis text. */
  lemma {:induction false} ChunksAreTheAnalysis(analysis: Option<string>, issue: CrashParser.Issue,
                                                results: seq<SourceResolver.SourceResult>)
    ensures Concat(ThreadMessageSpec(analysis, issue, results).chunks) == AnalysisText(analysis)
  {
    ChunksConcat(AnalysisText(analysis), 0);
  }
}

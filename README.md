# Crashlytics crash-analysis pipeline — a Dafny model

The Firebase functions in `functions/index.js` react to a new Crashlytics issue
in four steps:

1. post an alert to Slack;
2. pull the Swift file names and line numbers out of the issue's title and subtitle;
3. find those files in the GitHub repository and read them;
4. ask Claude for an analysis and post it in the alert's thread, with buttons.

One button opens a GitHub pull request carrying a fix generated by Claude.

This project models the decision and text-processing logic of that file. The
Slack, GitHub and Anthropic calls are replaced by their answers, given as
parameters; the clock is a parameter too. One Dafny module per part:

- `Text` (`text.dfy`): JavaScript truthiness, the regular-expression character classes, `trim`, `split`/`join`, `parseInt`, the decimal rendering of numbers.
- `Config` (`config.dfy`): the repository owner, name and default branch.
- `CrashParser` (`crash_parser.dfy`): `extractFileInfoFromIssue`: the four regular expressions, run as scanners, and the push-unless-listed loops.
- `Stacktrace` (`stacktrace.dfy`): `parseIosStacktrace`: the symbolicated-frame and title-line regular expressions.
- `GitTree` (`tree_cache.dfy`): the process-wide Git tree cache and `getTreeFiles`, as a `TreeCache` object.
- `Excerpt` (`excerpt.dfy`): the numbered ±20-line excerpt around the crash line.
- `SourceResolver` (`source_resolver.dfy`): `fetchSourceFromGithub`: the three lookup strategies, the record of each hint, the commit history.
- `FixGeneration` (`fix_generation.dfy`): `generateFixWithClaude`: the json code fence, the repair of truncated JSON, the validation of `fixes`.
- `Notification` (`notification.dfy`): `postAnalysisThread`: the 2900-character chunks, the file links, the button data and which buttons appear.
- `FixPr` (`fix_pr.dfy`): `createFixPR`: the branch name, the per-fix sha choice, the commit loop, the best-effort labels and the rollback, over a `Repository` object.
- `Pipeline` (`pipeline.dfy`): `crashAnalysisPipeline`: the early exits, the lookup only when there are hints, the single retry of the analysis.

Regular expressions are modelled as scanners with the source's semantics:
- a `g` pattern's `exec` loop finds the leftmost match at or after `lastIndex`;
- greedy runs such as `\w+` and `\d+` take the longest run;
- lazy groups such as `.*?` take the first end after which the rest matches;
- the `i` flag folds ASCII case only.

Strings are sequences of characters. JavaScript truthiness is explicit:
- `null`, `undefined` and `""` are falsy;
- a line number of 0 counts as no line;
- an empty array is truthy.

## Model

| member | source | states |
|---|---|---|
| `Text.OrElse` | functions/index.js:115 | `s || d` on an optional string: `s` when it is a non-empty string, else `d` |
| `Text.RunEnd` | functions/index.js:118 | a greedy character-class run ends at the end of the text or at the first character outside the class |
| `Text.RunEndAll` | functions/index.js:118 | every character a greedy run consumes is in its class |
| `Text.NatToString` | functions/index.js:281-283 | the decimal rendering of a number is a non-empty string of digits with no leading zero |
| `Text.DecimalRoundTrip` | functions/index.js:121 | `parseInt` of a number's decimal rendering gives the number back |
| `Text.NatToStringInjective` | functions/index.js:541 | distinct numbers render differently, so distinct timestamps give distinct branch-name tails |
| `Text.Trim` | functions/index.js:486 | `trim()` drops exactly the leading white-space run and the trailing white space: the result is the slice of `s` starting where the leading run ends, everything before and after it is white space, and it neither starts nor ends with white space |
| `Text.TrimStartIndex` | functions/index.js:486 | the leading run of white space is all white space and ends at the end of the text or at a character that is not white space |
| `Text.IndexOfFrom` | functions/index.js:541 | the search finds the first occurrence of the character at or after the start, or the end of the text when there is none |
| `Text.TrimNoop` | functions/index.js:486 | a text that neither starts nor ends with white space is its own trim |
| `Text.TrimIdempotent` | functions/index.js:486 | trimming twice is trimming once |
| `Text.Split` | functions/index.js:271 | `split` on a one-character separator gives at least one piece, and no piece holds the separator |
| `Text.SplitJoin` | functions/index.js:271 | joining the pieces of a split with the separator gives the text back |
| `Text.JoinSplit` | functions/index.js:285 | splitting pieces joined with a separator none of them holds gives the pieces back |
| `Text.SplitLastIsSuffix` | functions/index.js:244 | `split(sep).pop()` ends the text and, when it is shorter than the text, is preceded by a separator |
| `Text.LastPieceIsPop` | functions/index.js:244 | the recursive last piece equals the last element of `split(sep)` |
| `Text.LastPieceNoSep` | functions/index.js:244 | the last piece holds no separator |
| `Text.Basename` | functions/index.js:244 | the base name holds no `/`, ends the path, and is the whole path or is preceded by a `/`: the text after the last `/` |
| `Text.CountAppend` | functions/index.js:493-497 | the count of a character in a concatenation is the sum of the counts |
| `Text.CountRepeat` | functions/index.js:498-499 | `n` copies of `c` hold `n` occurrences of `c` and none of any other character |
| `Text.Repeat` | functions/index.js:498-499 | `n` copies of one character: length `n`, every position that character |
| `CrashParser.SwiftNameEnd` | functions/index.js:118 | `\w+\.swift` at `i` consumes word characters and then `.swift` (in any case under `i`): every character before the final six is a word character and the name ends in `.swift` |
| `CrashParser.MatchAt` | functions/index.js:118-149 | a match of each pattern gives an entry of that pattern's shape: patterns 1 and 2 carry a line, 3 and 4 none, and every name ends in `.swift` (pattern 2 in any case) |
| `CrashParser.NextMatchShaped` | functions/index.js:120 | `exec` from `lastIndex` returns only matches of the pattern |
| `CrashParser.CandidatesShaped` | functions/index.js:120-150 | every entry a `g` loop collects has its pattern's shape |
| `CrashParser.ExtractFileInfoFromIssue` | functions/index.js:113-155 | the four loops produce exactly the prioritised, de-duplicated candidate list; the function never fails and may return an empty list |
| `CrashParser.PushEveryMatch` | functions/index.js:118-122 | pattern 1 pushes every match, in order, repeats included |
| `CrashParser.PushUnlisted` | functions/index.js:125-150 | patterns 2 to 4 push a match only when its file is not yet listed |
| `CrashParser.AddAbsentExtends` | functions/index.js:127 | the push-unless-listed loop keeps the list it starts from as a prefix |
| `CrashParser.AddAbsentSubseq` | functions/index.js:126-130 | what that loop adds is a subsequence of the matches, in match order |
| `CrashParser.AddAbsentFresh` | functions/index.js:127 | no entry that loop adds repeats a file name already in the list |
| `CrashParser.AddAbsentCovers` | functions/index.js:127 | after that loop every match's file name is listed |
| `CrashParser.AddAbsentMembers` | functions/index.js:126-130 | that loop adds nothing but matches |
| `CrashParser.FoundEmptyIff` | functions/index.js:143 | the list is empty after patterns 1 to 3 exactly when none of them matched |
| `CrashParser.PrioritizePriority` | functions/index.js:140-151 | the inferred pattern-4 entries appear only when patterns 1 to 3 produced no entry |
| `CrashParser.PrioritizeDedup` | functions/index.js:117-150 | pattern 1's entries come first, unchanged, repeats included; no later entry repeats an earlier file name |
| `CrashParser.PrioritizeOrder` | functions/index.js:117-138 | after pattern 1's entries come pattern 2's, then pattern 3's, each in match order |
| `CrashParser.PrioritizeCoverage` | functions/index.js:117-151 | every file named by a pattern 1-3 match is listed, and every pattern-4 one when patterns 1 to 3 gave nothing |
| `CrashParser.FileHintsShape` | functions/index.js:118-149 | every returned file ends in `.swift`; entries with a line come from patterns 1 and 2, entries without from patterns 3 and 4 |
| `Stacktrace.SymbolicatedAt` | functions/index.js:88-89 | a symbolicated-frame match names a file ending in `.swift` (any case) |
| `Stacktrace.TitleLineAt` | functions/index.js:90 | a title-line match gives frame 0 of module `App` with a non-empty method name holding no white space |
| `Stacktrace.FrameAt` | functions/index.js:88-90 | both patterns give frames whose file ends in `.swift` (any case) |
| `Stacktrace.ParseIosStacktrace` | functions/index.js:85-111 | no stack trace gives no frames; otherwise all symbolicated frames in match order, then all title-line frames |
| `Stacktrace.PushFrames` | functions/index.js:92-109 | an `exec` loop pushes every match of its pattern, in order |
| `Stacktrace.NextFrameShape` | functions/index.js:92 | `exec` returns only frames of its pattern's shape |
| `Stacktrace.AllFramesShape` | functions/index.js:92-109 | every frame a loop collects names a `.swift` file; title-line frames have the title shape |
| `Stacktrace.TitleFramesShape` | functions/index.js:101-110 | every frame after the symbolicated ones is a title-line frame |
| `GitTree.BlobPathsMembers` | functions/index.js:193 | a path is kept exactly when the tree has a blob entry with that path |
| `GitTree.BlobPathsAppend` | functions/index.js:193 | the filter-and-map works entry by entry: the paths of a concatenation of trees are the paths of each part, in tree order, repeats kept |
| `GitTree.BlobPathsOne` | functions/index.js:193 | one entry gives its path exactly when it is a blob |
| `GitTree.GetTreeFilesSpec` | functions/index.js:178-197 | the cached files are returned without a fetch iff files are cached and less than 300000 ms old; otherwise a successful fetch stores the blob paths and `now`, and a failing one leaves the cache as it was |
| `GitTree.ReuseWithinTtl` | functions/index.js:170-183 | within five minutes of a fetch, a call is served from the cache with the same files, whatever the network would answer |
| `GitTree.ExpiresAfterTtl` | functions/index.js:180 | with no cached files, or five minutes or more after the last fetch, the next call fetches |
| `GitTree.TreeCache.constructor` | functions/index.js:170 | the cache starts with no files and timestamp 0 |
| `GitTree.TreeCache.GetTreeFiles` | functions/index.js:178-197 | the object's files and timestamp change exactly as the cache rule says, and nothing else changes |
| `Excerpt.Numbered` | functions/index.js:278-284 | a numbered slice has one entry per line of the slice |
| `Excerpt.NumberedAt` | functions/index.js:280-283 | entry `k` shows line `start + k`, numbered `start + k + 1`, with the arrow exactly when that number is the crash line |
| `Excerpt.WindowWithLine` | functions/index.js:275-285 | with a line, the lines run from `max(0, line - 20)` up to, not including, `min(length, line + 20)`, numbered `start + i + 1`; exactly the entry numbered `line` carries `" → "` |
| `Excerpt.WindowWithoutLine` | functions/index.js:286-288 | without a line (absent or 0), the excerpt is the first `min(length, 100)` lines, numbered from 1, none marked |
| `Excerpt.WindowSize` | functions/index.js:275-288 | the excerpt holds at most 40 lines around a crash line and at most 100 otherwise |
| `Excerpt.MarkedCount` | functions/index.js:282 | exactly one line is marked when the crash line exists in the file, none when it lies past the end |
| `Excerpt.MarkedNumbered` | functions/index.js:280-283 | a numbered slice from `start` to `end` marks one line exactly when the crash line is in `start + 1 .. end`, none otherwise |
| `Excerpt.RenderAll` | functions/index.js:283 | each entry renders as `${marker}${lineNum}: ${l}` |
| `Excerpt.ExcerptTextLines` | functions/index.js:278-285 | splitting the excerpt text at newlines gives back one rendered line per entry |
| `SourceResolver.HintName` | functions/index.js:200-206 | an item is used exactly when `item.file || item.filePath` is truthy, and its name is the first truthy one |
| `SourceResolver.TreePick` | functions/index.js:244-249 | the tree strategy returns a listed path equal to the file or ending in `/` plus its base name |
| `SourceResolver.DirectTierIff` | functions/index.js:211-220 | the direct probe is attempted exactly when the name holds a `/` |
| `SourceResolver.SearchTierIff` | functions/index.js:222-238 | code search runs exactly when the direct probe did not resolve the path |
| `SourceResolver.TreeTierIff` | functions/index.js:240-255 | the tree fallback runs exactly when code search ran and did not resolve the path; without it the cache is untouched |
| `SourceResolver.TiersInOrder` | functions/index.js:211-255 | the strategies run in order, each at most once, and at least one runs |
| `SourceResolver.ResolvedPathOrigin` | functions/index.js:211-255 | a direct hit is the name itself, a search hit is a returned item's path, a tree hit matches the name |
| `SourceResolver.SearchPrefersExact` | functions/index.js:229-233 | search returns the exact-path item when there is one, else item 0 |
| `SourceResolver.TreePickFirst` | functions/index.js:245-249 | the tree strategy takes the first matching path, and finds none exactly when no path matches |
| `SourceResolver.TreeMatchEndsWithName` | functions/index.js:246 | a tree match ends with the file's base name |
| `SourceResolver.ResolvePath` | functions/index.js:209-255 | the three strategies, run on the shared cache object, give the path and the cache the resolution rule gives |
| `SourceResolver.FirstMatching` | functions/index.js:245-249 | the filter-then-first search returns the tree strategy's pick |
| `SourceResolver.FetchSourceFromGithub` | functions/index.js:173-321 | the records pushed and the cache left are those of the per-item rule applied to each item in turn |
| `SourceResolver.ResultsFollowHints` | functions/index.js:199-319 | one record per named item, in item order, carrying its file name and line; unnamed items are skipped |
| `SourceResolver.ResultsWellFormed` | functions/index.js:258-318 | a record either has an error and no path, excerpt, text or sha, or has no error and all of them plus a commit history |
| `SourceResolver.UnresolvedIsNotFound` | functions/index.js:257-262 | an item no strategy resolved gets the error `파일을 찾을 수 없음` and no content |
| `SourceResolver.FoundRecordExcerpt` | functions/index.js:264-314 | a resolved, readable file's record carries the path, the full text and the excerpt of its lines |
| `SourceResolver.CommitLines` | functions/index.js:298-299 | one history line per commit |
| `SourceResolver.CommitLineSingle` | functions/index.js:299 | a history line keeps only the message's first line, so it holds no newline (given a single-line author and date) |
| `SourceResolver.CommitLinesSingle` | functions/index.js:298-299 | no history line holds a newline |
| `SourceResolver.CommitHistoryLines` | functions/index.js:298-300 | splitting the history at newlines gives one line per commit |
| `FixGeneration.LazyBody` | functions/index.js:475 | the lazy `[\s\S]*?` ends at the first position after which `\s*` and a closing fence follow |
| `FixGeneration.FenceBodyTrimmed` | functions/index.js:475-477 | the fence body neither starts nor ends with white space, so trimming it changes nothing |
| `FixGeneration.Repair` | functions/index.js:491-499 | the repaired text is the trimmed text, then `"` when its quote count is odd, then the missing `]`, then the missing `}` |
| `FixGeneration.AppendCopies` | functions/index.js:498-499 | the `for` loop appends `max(0, n)` copies of the character |
| `FixGeneration.RepairOnlyAppends` | functions/index.js:491-499 | the repair keeps the trimmed text as a prefix and appends only `"`, `]` and `}` |
| `FixGeneration.CountAfterRepeat` | functions/index.js:498-499 | appending copies of one character changes only that character's count |
| `FixGeneration.CountsAfterCopies` | functions/index.js:496-499 | appending `]` or `}` leaves the counts of `"`, `[` and `{` unchanged |
| `FixGeneration.RepairCounts` | functions/index.js:493-499 | after the repair: the quote count is even, `]` and `}` are raised by exactly the excess counts |
| `FixGeneration.RepairBalances` | functions/index.js:490-499 | after the repair the quotes pair up and no `[` or `{` outnumbers its closer |
| `FixGeneration.RepairNoop` | functions/index.js:493-499 | an even quote count and no excess opener leave the text unchanged |
| `FixGeneration.RepairIdempotent` | functions/index.js:491-499 | repairing a repaired text changes nothing |
| `FixGeneration.Member` | functions/index.js:511 | `parsed.fixes` is the value of a member named `fixes`, or absent when there is none |
| `FixGeneration.Fixables` | functions/index.js:404-408 | the filtered list is empty exactly when no record has no error and a non-empty text |
| `FixGeneration.GenerateFixWithClaude` | functions/index.js:402-521 | the result and the texts given to `JSON.parse` are those of the generate-fix rule |
| `FixGeneration.NoFixableNoRequest` | functions/index.js:404-408 | the model is asked exactly when some record has no error and a non-empty text; otherwise the result is null and nothing is parsed |
| `FixGeneration.RepairOnlyAfterFailure` | functions/index.js:484-508 | the trimmed text is parsed first; the repair is parsed once, exactly when that first parse fails |
| `FixGeneration.ResultIsValidated` | functions/index.js:501-516 | a result is the last parse's value and has a non-empty `fixes` array; a last parse with such an array is the result |
| `FixGeneration.FixesRejected` | functions/index.js:511-514 | an object with `fixes` absent, not an array or empty is rejected |
| `Notification.AnalysisText` | functions/index.js:741 | a missing or empty analysis is replaced by the default text; the text is never empty |
| `Notification.SplitAnalysis` | functions/index.js:744-748 | the stride loop pushes the chunks of the chunking rule |
| `Notification.ChunksConcat` | functions/index.js:744-748 | the chunks put back together are the analysis text |
| `Notification.ChunkSizes` | functions/index.js:744-748 | there are `ceil(length / 2900)` chunks, each of 1 to 2900 characters, all but the last exactly 2900 |
| `Notification.ChunksAreTheAnalysis` | functions/index.js:741-748 | the chunks of the posted reply put back together are the analysis, or the default text |
| `Notification.LinkableResults` | functions/index.js:768-769 | the filter keeps exactly the records with no error and a path |
| `Notification.LinkableResultsAppend` | functions/index.js:768-769 | the filter works record by record: filtering a concatenation concatenates the filtered parts, so kept records keep their order and repeats |
| `Notification.LinkableResultsOne` | functions/index.js:768-769 | one record is kept as it is exactly when it has no error and a path |
| `Notification.FileLinks` | functions/index.js:768-774 | one link per kept record, built from its path and line |
| `Notification.ButtonFiles` | functions/index.js:794-796 | the button data lists each kept record's path and line, in order |
| `Notification.AnyLinkable` | functions/index.js:812 | `some` is true exactly when a record has no error and a path |
| `Notification.PostAnalysisThread` | functions/index.js:738-852 | the chunks, the links section, the button data and the buttons are those of the thread-reply rule |
| `Notification.FixButtonIff` | functions/index.js:802-830 | the issue button is always first; the fix-PR button appears exactly when some record has no error and a path |
| `Notification.LinksFollowResults` | functions/index.js:767-813 | the links section appears exactly when the fix-PR button does; the button data name exactly the kept records, in order |
| `FixPr.AlnumOnly` | functions/index.js:540 | removing the non-alphanumeric characters leaves only ASCII letters and digits |
| `FixPr.SanitizeIdShape` | functions/index.js:540 | the branch id is at most 20 ASCII letters and digits: the first 20 of those in the id, or in `unknown` when the id is missing or empty |
| `FixPr.SanitizeIdKeeps` | functions/index.js:540 | an id of at most 20 letters and digits is kept as it is; a missing or empty one becomes `unknown` |
| `FixPr.AlnumOnlyKeeps` | functions/index.js:540 | removing non-alphanumerics from a text of letters and digits changes nothing |
| `FixPr.IdEndsAtDash` | functions/index.js:541 | in a branch name the first `-` after the prefix ends the sanitised id |
| `FixPr.BranchNameInjective` | functions/index.js:539-541 | distinct sanitised ids or timestamps give distinct branch names |
| `FixPr.FindSource` | functions/index.js:564 | `find` returns a record with that exact path, and none only when no record has it |
| `FixPr.FindSourceFirst` | functions/index.js:564 | `find` returns the first record with the path: every earlier record has another path |
| `FixPr.CommitFix` | functions/index.js:562-606 | a committed fix writes the fix's code to its path with message `fix: ` plus its summary |
| `FixPr.ShaChoice` | functions/index.js:566-606 | the sha sent is the known one when a record with that path has one; else the looked-up one when the lookup and that write succeed; else none |
| `FixPr.CommitsInOrder` | functions/index.js:562-609 | the fixes are written in order, one write per fix, up to the first error, which is the error raised |
| `FixPr.FailureStops` | functions/index.js:562-609 | once a write fails no later fix is tried |
| `FixPr.SummaryLines` | functions/index.js:612 | one line per fix, in order: `` - `path`: summary`` |
| `FixPr.SuccessShape` | functions/index.js:543-652 | on success the new branch is cut from the default branch's head and holds one write per fix; the pull request goes from it into the default branch and is the only one added; no other branch changes |
| `FixPr.FailureRollsBack` | functions/index.js:653-664 | on failure the first error is passed on, no pull request or label is added, the branch is gone when its deletion succeeds, and no other branch changes |
| `FixPr.LabelsBestEffort` | functions/index.js:640-649 | whether labelling works changes neither the result nor the branches and pull requests; when it works the pull request carries the three labels |
| `FixPr.AttemptIgnoresLabels` | functions/index.js:640-649 | a failing label request changes neither the attempt's result nor its branches and pull requests |
| `FixPr.CommitsIgnoreLabels` | functions/index.js:562-609 | the label answer plays no part in the commits |
| `FixPr.CommitFixIgnoresLabels` | functions/index.js:562-606 | committing one fix does not depend on the label answer |
| `FixPr.Repository.CreateFixPr` | functions/index.js:536-665 | the result and the repository's new branches, pull requests and labels are those of the create-fix-PR rule |
| `FixPr.Repository.Attempt` | functions/index.js:543-652 | the try block changes the repository as the attempt rule says |
| `FixPr.Repository.CommitFixes` | functions/index.js:562-609 | the commit loop records the writes of the commit rule on the branch and changes nothing else |
| `FixPr.Repository.constructor` | functions/index.js:536-538 | a repository starts with the given branches and no pull requests or labels |
| `Pipeline.HintsOf` | functions/index.js:876-882 | each location becomes one item with its file and line |
| `Pipeline.AnalyzeWithRetry` | functions/index.js:890-895 | the analysis is asked for a second time only when the first answer is empty |
| `Pipeline.CrashAnalysisPipeline` | functions/index.js:857-898 | the run and the cache left are those of the pipeline rule |
| `Pipeline.SingleRetry` | functions/index.js:890-898 | at most two attempts, the second exactly when the first answer is empty; the thread shows the first non-empty answer, or the default text |
| `Pipeline.StopsEarly` | functions/index.js:857-872 | without an issue or without the first alert nothing is posted or read |
| `Pipeline.NoHintsNoLookup` | functions/index.js:876-887 | GitHub is read only when there are hints; without them the reply has no links and only the issue button |
| `Pipeline.ResultsMatchHints` | functions/index.js:876-887 | the records follow the extracted hints one by one, in order, with their file names and lines |
| `Pipeline.FetchedFollowsLocations` | functions/index.js:876-887 | fetching for locations with file names gives one record per location, with its file and line |
| `Pipeline.NamedHints` | functions/index.js:199-206 | every parsed location has a file name, so no item is skipped |

## Left out

- Slack, Octokit and Anthropic requests, the Firebase triggers and `onRequest` handlers, and `logger`: they are network I/O and foreign libraries. Their answers are parameters: `ItemAnswers`, `PrAnswers`, the model's text, the analysis answers, the Slack thread id.
- `slackInteraction` (the button handler) and `postInitialAlert`: they are Slack request handling. `createFixPR` takes the fix data already as a typed `FixData`, so the check of its fields' JavaScript types is not modelled.
- `analyzeWithClaude` and the prompt texts: the prompts are presentation, and the analysis is a parameter.
- `testCrashAlert` and `buildFakeEvent`: these are static test data and HTTP handling.
- `Date.now()` and `setTimeout`: the clock is a parameter, and the five-second wait before the retry is not modelled.
- `Buffer` base64 decoding and encoding: file contents are taken as already decoded, and the written content as given.
- `JSON.parse` is a parameter `parse: string -> Option<Json>`. JSON numbers are integers in `Json`, since no property depends on them.
- Concurrent invocations sharing the tree cache: the model is single-threaded.
- String lengths count characters, not UTF-16 code units. This matters for the 2900 chunk size on text outside the Basic Multilingual Plane.
- The `i` flag folds ASCII case only; Unicode case folding is not modelled.
- Markdown and Block Kit layout of the Slack messages and of the pull request body: the model keeps the pieces that depend on the inputs (`ThreadMessage`, `PrBody`).
- The code search query text and the `per_page` limits: the search and listing answers are parameters, so these are already part of the answers.
- The directory case of `getContent`, where `currentFile.sha` is undefined, is not modelled.
- The catch of `crashAnalysisPipeline` (functions/index.js:899-912) posts an error message. In the model every step it calls handles its own failures, so no error reaches it.
- Text.DecimalRoundTrip: `parseInt` returns a double, exact only below 2^53; the model reads digits into unbounded integers, so the round trip is claimed for every number while the source keeps it only for line numbers and timestamps below 2^53.
- Stacktrace.TitleLineAt: the symbolicated frames' method name may be empty after `trim()`; only title-line frames are claimed non-empty.
- SourceResolver.CommitLineSingle: it assumes the author name and date hold no newline.

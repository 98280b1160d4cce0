/** The crash-hint parser: extractFileInfoFromIssue (functions/index.js:113-155).
    Four regular expressions are run, in priority order, over
    `${title || ""} ${subtitle || ""}`:
      1. /(\w+\.swift):(\d+)/g              every match is kept, repeats included;
      2. /(\w+\.swift)\b.*?\bline\s+(\d+)/gi a match is kept unless its file is listed;
      3. /(\w+\.swift)\b/g                  likewise, with no line;
      4. /(\w+)\.\w+\(/g → "$1.swift"        only when 1-3 found nothing, deduplicated.
    Each regular expression is modelled as a scanner: MatchAt is the match a
    backtracking engine finds when it starts at one index, NextMatch is RegExp.exec
    (the leftmost match at or after lastIndex), and Candidates lists what the
    source's `while ((match = re.exec(s)) !== null)` loop sees. */
module CrashParser {
  import opened Text

  /** A crash alert's issue: all fields may be absent. */
  datatype Issue = Issue(id: Option<string>, title: Option<string>, subtitle: Option<string>, appVersion: Option<string>)

  /** A file hint: a file name and the line number the text gave for it, if any. */
  datatype FileLocation = FileLocation(file: string, line: Option<nat>)

  datatype Pattern = FileColonLine | FileThenLine | FileOnly | TypeCall

  /** One match: the index just past it (the new lastIndex) and the entry built from it. */
  datatype Hit = Hit(end: nat, entry: FileLocation)

  /** The text the patterns are run over. */
  function Combined(issue: Issue): string {
    OrElse(issue.title, "") + " " + OrElse(issue.subtitle, "")
  }

  /** The shape the source gives an entry built from a match of pattern `p`. */
  predicate Shaped(p: Pattern, e: FileLocation) {
    match p
    case FileColonLine => e.line.Some? && EndsWith(e.file, ".swift")
    case FileThenLine => e.line.Some? && EndsWithSwiftCI(e.file)
    case FileOnly => e.line.None? && EndsWith(e.file, ".swift")
    case TypeCall => e.line.None? && EndsWith(e.file, ".swift")
  }

  /** `\w+\.swift` at `i` (`.swift` in any case when `ci`): the index just past it.
      \w+ cannot give back characters here, since `.` is not a word character. */
  function SwiftNameEnd(s: string, i: nat, ci: bool): (a: Option<nat>)
    requires i <= |s|
    ensures a.Some? ==> i + 6 < a.value <= |s| && EndsWithSwiftCI(s[i..a.value])
    ensures a.Some? && !ci ==> EndsWith(s[i..a.value], ".swift")
    ensures a.Some? ==> forall m :: i <= m < a.value - 6 ==> IsWordChar(s[m])
  {
    RunEndAll(s, i, Word);
    var j := RunEnd(s, i, Word);
    if j > i && (if ci then SwiftAt(s, j) else HasAt(s, j, ".swift")) then
      assert s[i..j + 6][j - i..] == s[j..j + 6];
      assert !ci ==> s[j] == '.' && s[j + 1] == 's';
      Some(j + 6)
    else None
  }

  /** \b just after a word character at index a - 1. */
  predicate BoundaryAfterWord(s: string, a: nat) {
    a == |s| || (a < |s| && !IsWordChar(s[a]))
  }

  /** `\bline\s+(\d+)` at `k` under the `i` flag: the end of the match and the number. */
  function LineAt(s: string, k: nat): Option<(nat, nat)>
    requires k <= |s|
  {
    if (k == 0 || !IsWordChar(s[k - 1])) && LineWordAt(s, k) then
      var w := RunEnd(s, k + 4, Space);
      var d := RunEnd(s, w, Digit);
      if w > k + 4 && d > w then Some((d, DecimalValue(s[w..d]))) else None
    else None
  }

  /** `.*?\bline\s+(\d+)` from `k`: the lazy gap grows one character at a time and
      may not cross a line terminator. */
  function LazyLine(s: string, k: nat): (r: Option<(nat, nat)>)
    requires k <= |s|
    ensures r.Some? ==> k < r.value.0 <= |s|
    decreases |s| - k
  {
    match LineAt(s, k)
    case Some(hit) => Some(hit)
    case None =>
      if k < |s| && !IsLineTerminator(s[k]) then LazyLine(s, k + 1) else None
  }

  /** The match pattern `p` has when the engine starts at `i`, if any. */
  function MatchAt(p: Pattern, s: string, i: nat): (h: Option<Hit>)
    requires i <= |s|
    ensures h.Some? ==> i < h.value.end <= |s| && Shaped(p, h.value.entry)
  {
    match p
    case FileColonLine =>
      var a := SwiftNameEnd(s, i, false);
      if a.Some? && a.value < |s| && s[a.value] == ':' then
        var d := RunEnd(s, a.value + 1, Digit);
        if d > a.value + 1 then Some(Hit(d, FileLocation(s[i..a.value], Some(DecimalValue(s[a.value + 1..d])))))
        else None
      else None
    case FileThenLine =>
      var a := SwiftNameEnd(s, i, true);
      if a.Some? && BoundaryAfterWord(s, a.value) then
        match LazyLine(s, a.value)
        case Some(hit) => Some(Hit(hit.0, FileLocation(s[i..a.value], Some(hit.1))))
        case None => None
      else None
    case FileOnly =>
      var a := SwiftNameEnd(s, i, false);
      if a.Some? && BoundaryAfterWord(s, a.value) then Some(Hit(a.value, FileLocation(s[i..a.value], None)))
      else None
    case TypeCall =>
      var j := RunEnd(s, i, Word);
      if j > i && j < |s| && s[j] == '.' then
        var m := RunEnd(s, j + 1, Word);
        if m > j + 1 && m < |s| && s[m] == '(' then
          var name := s[i..j] + ".swift";
          assert name[|name| - 6..] == ".swift";
          Some(Hit(m + 1, FileLocation(name, None)))
        else None
      else None
  }

  /** RegExp.prototype.exec with the `g` flag: the leftmost match starting at or
      after lastIndex `from`. */
  function NextMatch(p: Pattern, s: string, from: nat): (h: Option<Hit>)
    requires from <= |s|
    ensures h.Some? ==> from < h.value.end <= |s|
    decreases |s| - from
  {
    match MatchAt(p, s, from)
    case Some(hit) => Some(hit)
    case None => if from == |s| then None else NextMatch(p, s, from + 1)
  }

  /** The entries of every match a global exec loop finds from lastIndex `from`. */
  function Candidates(p: Pattern, s: string, from: nat): seq<FileLocation>
    requires from <= |s|
    decreases |s| - from
  {
    match NextMatch(p, s, from)
    case None => []
    case Some(hit) => [hit.entry] + Candidates(p, s, hit.end)
  }

  /** exec only ever returns a match of the pattern, so the entry has its shape. */
  lemma {:induction false} NextMatchShaped(p: Pattern, s: string, from: nat)
    requires from <= |s|
    ensures var h := NextMatch(p, s, from); h.Some? ==> Shaped(p, h.value.entry)
    decreases |s| - from
  {
    if MatchAt(p, s, from).None? && from < |s| {
      NextMatchShaped(p, s, from + 1);
    }
  }

  /** Every candidate a pattern yields has that pattern's shape. */
  lemma {:induction false} CandidatesShaped(p: Pattern, s: string, from: nat)
    requires from <= |s|
    ensures forall e :: e in Candidates(p, s, from) ==> Shaped(p, e)
    decreases |s| - from
  {
    var h := NextMatch(p, s, from);
    if h.Some? {
      NextMatchShaped(p, s, from);
      CandidatesShaped(p, s, h.value.end);
    }
  }

  /** files.some((f) => f.file === name) */
  predicate Listed(files: seq<FileLocation>, name: string) {
    exists k :: 0 <= k < |files| && files[k].file == name
  }

  /** Push each candidate whose file is not yet listed, in order: the loop body of
      patterns 2, 3 and 4. */
  function AddAbsent(files: seq<FileLocation>, cands: seq<FileLocation>): seq<FileLocation>
    decreases |cands|
  {
    if cands == [] then files
    else AddAbsent(if Listed(files, cands[0].file) then files else files + [cands[0]], cands[1..])
  }

  /** The priority rule over the four patterns' candidate lists: pattern 1 as is,
      then patterns 2 and 3 unless listed, then pattern 4 only if that is empty. */
  function Prioritize(c1: seq<FileLocation>, c2: seq<FileLocation>, c3: seq<FileLocation>,
                      c4: seq<FileLocation>): seq<FileLocation> {
    var found := AddAbsent(AddAbsent(c1, c2), c3);
    if found == [] then AddAbsent([], c4) else found
  }

  /** What extractFileInfoFromIssue returns for `issue`. */
  function FileHints(issue: Issue): seq<FileLocation> {
    var s := Combined(issue);
    Prioritize(Candidates(FileColonLine, s, 0), Candidates(FileThenLine, s, 0),
               Candidates(FileOnly, s, 0), Candidates(TypeCall, s, 0))
  }

  /** extractFileInfoFromIssue, loop by loop as the source runs it. */
  method ExtractFileInfoFromIssue(issue: Issue) returns (files: seq<FileLocation>)
    ensures files == FileHints(issue)
  {
    var combined := Combined(issue);
    files := PushEveryMatch(FileColonLine, combined, []);
    assert files == Candidates(FileColonLine, combined, 0);
    files := PushUnlisted(FileThenLine, combined, files);
    files := PushUnlisted(FileOnly, combined, files);
    if |files| == 0 {
      files := PushUnlisted(TypeCall, combined, files);
    }
  }

  /** The exec loop of pattern 1: every match is pushed. */
  method PushEveryMatch(p: Pattern, s: string, files0: seq<FileLocation>) returns (files: seq<FileLocation>)
    ensures files == files0 + Candidates(p, s, 0)
  {
    files := files0;
    var lastIndex := 0;
    var m := NextMatch(p, s, lastIndex);
    while m.Some?
      invariant lastIndex <= |s|
      invariant m == NextMatch(p, s, lastIndex)
      invariant AppendEach(files, Candidates(p, s, lastIndex)) == AppendEach(files0, Candidates(p, s, 0))
      decreases |s| - lastIndex
    {
      ghost var rest := Candidates(p, s, m.value.end);
      assert ([m.value.entry] + rest)[1..] == rest;
      files := files + [m.value.entry];
      lastIndex := m.value.end;
      m := NextMatch(p, s, lastIndex);
    }
    AppendEachConcat(files0, Candidates(p, s, 0));
  }

  /** The exec loop of patterns 2, 3 and 4: a match is pushed unless its file is listed. */
  method PushUnlisted(p: Pattern, s: string, files0: seq<FileLocation>) returns (files: seq<FileLocation>)
    ensures files == AddAbsent(files0, Candidates(p, s, 0))
  {
    files := files0;
    var lastIndex := 0;
    var m := NextMatch(p, s, lastIndex);
    while m.Some?
      invariant lastIndex <= |s|
      invariant m == NextMatch(p, s, lastIndex)
      invariant AddAbsent(files, Candidates(p, s, lastIndex)) == AddAbsent(files0, Candidates(p, s, 0))
      decreases |s| - lastIndex
    {
      ghost var rest := Candidates(p, s, m.value.end);
      assert ([m.value.entry] + rest)[1..] == rest;
      if !Listed(files, m.value.entry.file) {
        files := files + [m.value.entry];
      }
      lastIndex := m.value.end;
      m := NextMatch(p, s, lastIndex);
    }
  }

  // ---------------------------------------------------------------------------
  // The push-unless-listed combinator

  /** AddAbsent only appends: the list it is given is kept as a prefix. */
  lemma {:induction false} AddAbsentExtends(files: seq<FileLocation>, cands: seq<FileLocation>)
    ensures |files| <= |AddAbsent(files, cands)|
    ensures AddAbsent(files, cands)[..|files|] == files
    decreases |cands|
  {
    if cands != [] {
      var next := if Listed(files, cands[0].file) then files else files + [cands[0]];
      AddAbsentExtends(next, cands[1..]);
      assert next[..|files|] == files;
    }
  }

  /** What AddAbsent appends is the candidates, in their order, minus some. */
  lemma {:induction false} AddAbsentSubseq(files: seq<FileLocation>, cands: seq<FileLocation>)
    ensures |files| <= |AddAbsent(files, cands)|
    ensures IsSubseq(AddAbsent(files, cands)[|files|..], cands)
    decreases |cands|
  {
    AddAbsentExtends(files, cands);
    var r := AddAbsent(files, cands);
    if cands == [] {
      assert r[|files|..] == [];
    } else if Listed(files, cands[0].file) {
      AddAbsentSubseq(files, cands[1..]);
      IsSubseqWeaken(r[|files|..], cands[1..], cands[0]);
      assert [cands[0]] + cands[1..] == cands;
    } else {
      var next := files + [cands[0]];
      AddAbsentSubseq(next, cands[1..]);
      AddAbsentExtends(next, cands[1..]);
      assert r[|files|..][0] == cands[0];
      assert r[|files|..][1..] == r[|next|..];
    }
  }

  /** Nothing AddAbsent appends names a file that was listed before it: not in
      the list it was given, and not in an earlier appended entry. */
  lemma {:induction false} AddAbsentFresh(files: seq<FileLocation>, cands: seq<FileLocation>)
    ensures |files| <= |AddAbsent(files, cands)|
    ensures forall i, j :: 0 <= i < j < |AddAbsent(files, cands)| && j >= |files| ==>
              AddAbsent(files, cands)[i].file != AddAbsent(files, cands)[j].file
    decreases |cands|
  {
    AddAbsentExtends(files, cands);
    if cands != [] {
      var next := if Listed(files, cands[0].file) then files else files + [cands[0]];
      AddAbsentFresh(next, cands[1..]);
      AddAbsentExtends(next, cands[1..]);
      var r := AddAbsent(files, cands);
      if !Listed(files, cands[0].file) {
        forall i, j | 0 <= i < j < |r| && j >= |files|
          ensures r[i].file != r[j].file
        {
          if j == |files| {
            assert r[j] == cands[0];
            assert r[i] == files[i];
          }
        }
      }
    }
  }

  /** Every candidate's file is listed once AddAbsent is done. */
  lemma {:induction false} AddAbsentCovers(files: seq<FileLocation>, cands: seq<FileLocation>)
    ensures forall k :: 0 <= k < |files| ==> Listed(AddAbsent(files, cands), files[k].file)
    ensures forall c :: c in cands ==> Listed(AddAbsent(files, cands), c.file)
    decreases |cands|
  {
    AddAbsentExtends(files, cands);
    var r := AddAbsent(files, cands);
    forall k | 0 <= k < |files| ensures Listed(r, files[k].file) {
      assert r[k] == files[k];
    }
    if cands != [] {
      var next := if Listed(files, cands[0].file) then files else files + [cands[0]];
      AddAbsentCovers(next, cands[1..]);
      if Listed(files, cands[0].file) {
        var k :| 0 <= k < |files| && files[k].file == cands[0].file;
        assert Listed(r, files[k].file);
      } else {
        assert next[|files|] == cands[0];
      }
      forall c | c in cands ensures Listed(r, c.file) {
        if c != cands[0] {
          assert c in cands[1..];
        }
      }
    }
  }

  /** Every entry AddAbsent returns was given to it. */
  lemma {:induction false} AddAbsentMembers(files: seq<FileLocation>, cands: seq<FileLocation>)
    ensures forall e :: e in AddAbsent(files, cands) ==> e in files || e in cands
  {
    AddAbsentExtends(files, cands);
    AddAbsentSubseq(files, cands);
    var r := AddAbsent(files, cands);
    IsSubseqMembers(r[|files|..], cands);
    assert r == files + r[|files|..];
  }

  // ---------------------------------------------------------------------------
  // The priority rule

  /** Patterns 1-3 yield an entry exactly when one of them has a candidate. */
  lemma {:induction false} FoundEmptyIff(c1: seq<FileLocation>, c2: seq<FileLocation>, c3: seq<FileLocation>)
    ensures AddAbsent(AddAbsent(c1, c2), c3) == [] <==> c1 + c2 + c3 == []
  {
    var f2 := AddAbsent(c1, c2);
    var found := AddAbsent(f2, c3);
    AddAbsentExtends(c1, c2);
    AddAbsentExtends(f2, c3);
    AddAbsentCovers(c1, c2);
    AddAbsentCovers(f2, c3);
    if c1 + c2 + c3 != [] && c1 == [] {
      if c2 != [] {
        assert c2[0] in c2;
        assert Listed(f2, c2[0].file);
      } else {
        assert c3[0] in c3;
      }
    }
    if c1 + c2 + c3 == [] {
      assert c1 == [] && c2 == [] && c3 == [];
    }
  }

  /** Priority: inferred (pattern-4) entries appear only when patterns 1-3 gave no
      candidate; otherwise every entry is a pattern 1-3 candidate. */
  lemma {:induction false} PrioritizePriority(c1: seq<FileLocation>, c2: seq<FileLocation>, c3: seq<FileLocation>, c4: seq<FileLocation>)
    ensures c1 + c2 + c3 != [] ==> forall e :: e in Prioritize(c1, c2, c3, c4) ==> e in c1 + c2 + c3
    ensures c1 + c2 + c3 == [] ==> IsSubseq(Prioritize(c1, c2, c3, c4), c4)
  {
    var f2 := AddAbsent(c1, c2);
    var found := AddAbsent(f2, c3);
    AddAbsentMembers(c1, c2);
    AddAbsentMembers(f2, c3);
    FoundEmptyIff(c1, c2, c3);
    if c1 + c2 + c3 == [] {
      assert c1 == [] && c2 == [] && c3 == [];
      AddAbsentSubseq([], c4);
    }
  }

  /** Deduplication: the pattern-1 candidates come first, all of them, repeats
      included; no entry after them names a file named by any entry before it. */
  lemma {:induction false} PrioritizeDedup(c1: seq<FileLocation>, c2: seq<FileLocation>, c3: seq<FileLocation>, c4: seq<FileLocation>)
    ensures var r := Prioritize(c1, c2, c3, c4);
      |c1| <= |r| && r[..|c1|] == c1 &&
      (forall i, j :: 0 <= i < j < |r| && j >= |c1| ==> r[i].file != r[j].file)
  {
    var f2 := AddAbsent(c1, c2);
    var found := AddAbsent(f2, c3);
    FoundEmptyIff(c1, c2, c3);
    if found != [] {
      AddAbsentExtends(c1, c2);
      AddAbsentExtends(f2, c3);
      AddAbsentFresh(c1, c2);
      AddAbsentFresh(f2, c3);
      assert found[..|c1|] == f2[..|c1|];
      forall i, j | 0 <= i < j < |found| && j >= |c1|
        ensures found[i].file != found[j].file
      {
        if j < |f2| {
          assert found[i] == f2[i] && found[j] == f2[j];
        }
      }
    } else {
      AddAbsentFresh([], c4);
    }
  }

  /** Order: after the pattern-1 candidates come pattern-2 then pattern-3
      candidates, each in match order. */
  lemma {:induction false} PrioritizeOrder(c1: seq<FileLocation>, c2: seq<FileLocation>, c3: seq<FileLocation>, c4: seq<FileLocation>)
    requires c1 + c2 + c3 != []
    ensures |c1| <= |Prioritize(c1, c2, c3, c4)|
    ensures IsSubseq(Prioritize(c1, c2, c3, c4)[|c1|..], c2 + c3)
  {
    var f2 := AddAbsent(c1, c2);
    var found := AddAbsent(f2, c3);
    FoundEmptyIff(c1, c2, c3);
    assert Prioritize(c1, c2, c3, c4) == found;
    AddAbsentExtends(c1, c2);
    AddAbsentExtends(f2, c3);
    AddAbsentSubseq(c1, c2);
    AddAbsentSubseq(f2, c3);
    assert found[|c1|..] == f2[|c1|..] + found[|f2|..];
    IsSubseqConcat(f2[|c1|..], c2, found[|f2|..], c3);
  }

  /** Coverage: every file a pattern 1-3 candidate names is listed in the result,
      and so is every pattern-4 one when patterns 1-3 gave nothing. */
  lemma {:induction false} PrioritizeCoverage(c1: seq<FileLocation>, c2: seq<FileLocation>, c3: seq<FileLocation>, c4: seq<FileLocation>)
    ensures forall e :: e in c1 + c2 + c3 ==> Listed(Prioritize(c1, c2, c3, c4), e.file)
    ensures c1 + c2 + c3 == [] ==> forall e :: e in c4 ==> Listed(Prioritize(c1, c2, c3, c4), e.file)
  {
    var f2 := AddAbsent(c1, c2);
    var found := AddAbsent(f2, c3);
    AddAbsentCovers(c1, c2);
    AddAbsentCovers(f2, c3);
    AddAbsentCovers([], c4);
    forall e: FileLocation | e in c1 + c2 + c3 ensures Listed(found, e.file) {
      if e in c1 || e in c2 {
        var k :| 0 <= k < |f2| && f2[k].file == e.file;
        assert Listed(found, f2[k].file);
      }
    }
    FoundEmptyIff(c1, c2, c3);
  }

  // ---------------------------------------------------------------------------
  // Properties of extractFileInfoFromIssue

  /** Shape: every entry names a `.swift` file (pattern-2 entries only up to ASCII
      case, since that pattern has the `i` flag); an entry carries a line number
      exactly when it came from pattern 1 or 2. */
  lemma {:induction false} FileHintsShape(issue: Issue)
    ensures var s := Combined(issue);
      forall e :: e in FileHints(issue) ==>
        EndsWithSwiftCI(e.file) &&
        (e.line.Some? ==> e in Candidates(FileColonLine, s, 0) + Candidates(FileThenLine, s, 0)) &&
        (e.line.None? ==> e in Candidates(FileOnly, s, 0) + Candidates(TypeCall, s, 0))
  {
    var s := Combined(issue);
    var c1, c2, c3, c4 := Candidates(FileColonLine, s, 0), Candidates(FileThenLine, s, 0),
                          Candidates(FileOnly, s, 0), Candidates(TypeCall, s, 0);
    CandidatesShaped(FileColonLine, s, 0);
    CandidatesShaped(FileThenLine, s, 0);
    CandidatesShaped(FileOnly, s, 0);
    CandidatesShaped(TypeCall, s, 0);
    var f2 := AddAbsent(c1, c2);
    AddAbsentMembers(c1, c2);
    AddAbsentMembers(f2, c3);
    AddAbsentMembers([], c4);
    assert FileHints(issue) == Prioritize(c1, c2, c3, c4);
    forall e: FileLocation | e in FileHints(issue)
      ensures EndsWithSwiftCI(e.file)
      ensures e.line.Some? ==> e in c1 + c2
      ensures e.line.None? ==> e in c3 + c4
    {
      assert e in c1 || e in c2 || e in c3 || e in c4;
      if e in c1 || e in c3 || e in c4 {
        EndsWithSwift(e.file);
      }
    }
  }
}

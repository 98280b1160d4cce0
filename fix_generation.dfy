/** generateFixWithClaude (functions/index.js:402-521): ask the model for a fix
    only when some source file was read, take the body of the first ```json fence
    of the answer (or the whole answer), parse it, and when parsing fails parse
    once more after closing what a truncated answer leaves open; accept the result
    only if it has a non-empty `fixes` array. The model's answer and JSON.parse
    are parameters: `parse(s)` is None exactly when JSON.parse(s) throws. */
module FixGeneration {
  import opened Text
  import SourceResolver

  /** A JSON value as JSON.parse returns it (numbers as integers). An object keeps
      its members in text order, duplicates included. */
  datatype Json =
    | JNull
    | JBool(b: bool)
    | JNumber(n: int)
    | JString(s: string)
    | JArray(items: seq<Json>)
    | JObject(members: seq<(string, Json)>)

  // ---------------------------------------------------------------------------
  // The fence: /```json\s*([\s\S]*?)\s*```/

  /** `\s*```` can match at `e`: after the white space starting at `e` comes a
      closing fence (\s* backtracks, but a backtick is not white space, so only
      the end of the run can be followed by one). */
  predicate ClosesAt(s: string, e: nat)
    requires e <= |s|
  {
    HasAt(s, RunEnd(s, e, Space), "```")
  }

  /** The lazy `([\s\S]*?)` started at `w`: the first end `e` from `from` on at
      which the fence closes. */
  function LazyBody(s: string, w: nat, from: nat): (e: Option<nat>)
    requires w <= from <= |s|
    ensures e.Some? ==>
      (from <= e.value <= |s| && ClosesAt(s, e.value) && forall k :: from <= k < e.value ==> !ClosesAt(s, k))
    decreases |s| - from
  {
    if ClosesAt(s, from) then Some(from)
    else if from == |s| then None
    else LazyBody(s, w, from + 1)
  }

  /** The group when the match starts at `i`. The leading \s* is greedy; giving
      white space back to it cannot help, since any end the group could then have
      was already tried. */
  function FenceAt(s: string, i: nat): Option<string>
    requires i <= |s|
  {
    if HasAt(s, i, "```json") then
      var w := RunEnd(s, i + 7, Space);
      match LazyBody(s, w, w)
      case Some(e) => Some(s[w..e])
      case None => None
    else None
  }

  /** text.match(...)[1] for the leftmost match at or after `from`, if any. */
  function FenceBody(s: string, from: nat): Option<string>
    requires from <= |s|
    decreases |s| - from
  {
    match FenceAt(s, from)
    case Some(b) => Some(b)
    case None => if from == |s| then None else FenceBody(s, from + 1)
  }

  /** jsonStr: the fence body, or the whole answer when there is no fence. */
  function JsonText(text: string): string {
    match FenceBody(text, 0)
    case Some(b) => b
    case None => text
  }

  // ---------------------------------------------------------------------------
  // Repair

  /** Math.max(0, n), as the `for (i = 0; i < n; i++)` loops run. */
  function Excess(openers: nat, closers: nat): nat {
    if openers > closers then openers - closers else 0
  }

  /** The repaired text: `t` (already trimmed), then `"` when it holds an odd
      number of quotes, then the missing `]`, then the missing `}`. Both excess
      counts are taken after the quote is added. */
  function RepairSpec(t: string): string {
    var q := if Count(t, '"') % 2 != 0 then t + "\"" else t;
    q + Repeat(']', Excess(Count(q, '['), Count(q, ']'))) + Repeat('}', Excess(Count(q, '{'), Count(q, '}')))
  }

  /** The repair as the source writes it. */
  method Repair(jsonStr: string) returns (repaired: string)
    ensures repaired == RepairSpec(Trim(jsonStr))
  {
    repaired := Trim(jsonStr);
    var openQuotes := Count(repaired, '"');
    if openQuotes % 2 != 0 {
      repaired := repaired + "\"";
    }
    var openBraces := Count(repaired, '{') - Count(repaired, '}');
    var openBrackets := Count(repaired, '[') - Count(repaired, ']');
    repaired := AppendCopies(repaired, ']', openBrackets);
    repaired := AppendCopies(repaired, '}', openBraces);
  }

  /** `for (let i = 0; i < n; i++) repaired += c`: nothing when `n` is not positive. */
  method AppendCopies(s: string, c: char, n: int) returns (r: string)
    ensures r == s + Repeat(c, if n > 0 then n else 0)
  {
    r := s;
    var i := 0;
    while i < n
      invariant 0 <= i <= (if n > 0 then n else 0)
      invariant r == s + Repeat(c, i)
    {
      assert s + Repeat(c, i) + [c] == s + Repeat(c, i + 1);
      r := r + [c];
      i := i + 1;
    }
  }

  /** The repair only appends closing characters to the trimmed text. */
  lemma {:induction false} RepairOnlyAppends(t: string)
    ensures var r := RepairSpec(t);
      |t| <= |r| && r[..|t|] == t &&
      forall k :: |t| <= k < |r| ==> r[k] == '"' || r[k] == ']' || r[k] == '}'
  {
  }

  /** Appending copies of `c` adds to the count of `c` only. */
  lemma {:induction false} CountAfterRepeat(a: string, c: char, n: nat, d: char)
    ensures Count(a + Repeat(c, n), d) == Count(a, d) + (if c == d then n else 0)
  {
    CountAppend(a, Repeat(c, n), d);
    CountRepeat(c, d, n);
  }

  /** The counts of the five characters the repair looks at, after the repair. */
  lemma {:induction false} RepairCounts(t: string)
    ensures var q := if Count(t, '"') % 2 != 0 then t + "\"" else t;
      var r := RepairSpec(t);
      Count(r, '"') == Count(q, '"') && Count(q, '"') % 2 == 0 &&
      Count(r, '[') == Count(q, '[') && Count(r, ']') == Count(q, ']') + Excess(Count(q, '['), Count(q, ']')) &&
      Count(r, '{') == Count(q, '{') && Count(r, '}') == Count(q, '}') + Excess(Count(q, '{'), Count(q, '}'))
  {
    var q := if Count(t, '"') % 2 != 0 then t + "\"" else t;
    if Count(t, '"') % 2 != 0 {
      CountAppend(t, "\"", '"');
      assert Count("\"", '"') == 1;
    }
    var nb, nc := Excess(Count(q, '['), Count(q, ']')), Excess(Count(q, '{'), Count(q, '}'));
    CountsAfterCopies(q, ']', nb);
    CountsAfterCopies(q + Repeat(']', nb), '}', nc);
  }

  /** The counts of the five characters the repair looks at, after copies of `c`. */
  lemma {:induction false} CountsAfterCopies(a: string, c: char, n: nat)
    requires c == ']' || c == '}'
    ensures Count(a + Repeat(c, n), '"') == Count(a, '"')
    ensures Count(a + Repeat(c, n), '[') == Count(a, '[')
    ensures Count(a + Repeat(c, n), '{') == Count(a, '{')
    ensures Count(a + Repeat(c, n), ']') == Count(a, ']') + (if c == ']' then n else 0)
    ensures Count(a + Repeat(c, n), '}') == Count(a, '}') + (if c == '}' then n else 0)
  {
    CountAfterRepeat(a, c, n, '"');
    CountAfterRepeat(a, c, n, '[');
    CountAfterRepeat(a, c, n, ']');
    CountAfterRepeat(a, c, n, '{');
    CountAfterRepeat(a, c, n, '}');
  }

  /** After the repair the quotes pair up and no bracket or brace is left open. */
  lemma {:induction false} RepairBalances(t: string)
    ensures var r := RepairSpec(t);
      Count(r, '"') % 2 == 0 && Count(r, '[') <= Count(r, ']') && Count(r, '{') <= Count(r, '}')
  {
    RepairCounts(t);
  }

  /** A text with paired quotes and nothing left open is left unchanged. */
  lemma {:induction false} RepairNoop(t: string)
    requires Count(t, '"') % 2 == 0 && Count(t, '[') <= Count(t, ']') && Count(t, '{') <= Count(t, '}')
    ensures RepairSpec(t) == t
  {
    assert Repeat(']', 0) == [] && Repeat('}', 0) == [];
    assert t + [] + [] == t;
  }

  /** Repairing twice is repairing once. */
  lemma {:induction false} RepairIdempotent(t: string)
    ensures RepairSpec(RepairSpec(t)) == RepairSpec(t)
  {
    RepairBalances(t);
    RepairNoop(RepairSpec(t));
  }

  /** The fence body never starts or ends with white space, so trimming it is a no-op. */
  lemma {:induction false} FenceBodyTrimmed(s: string, from: nat)
    requires from <= |s| && FenceBody(s, from).Some?
    ensures Trim(FenceBody(s, from).value) == FenceBody(s, from).value
    decreases |s| - from
  {
    if FenceAt(s, from).Some? {
      var w := RunEnd(s, from + 7, Space);
      var e := LazyBody(s, w, w).value;
      var b := s[w..e];
      if b != [] {
        assert !IsSpace(b[0]);
        assert !ClosesAt(s, e - 1) && ClosesAt(s, e);
        RunEndStep(s, e - 1, Space);
        assert !IsSpace(s[e - 1]);
        assert b[|b| - 1] == s[e - 1];
      }
      TrimNoop(b);
    } else {
      FenceBodyTrimmed(s, from + 1);
    }
  }

  // ---------------------------------------------------------------------------
  // Validation and the whole call

  /** parsed.fixes: the last member named "fixes" of an object, as JSON.parse
      keeps the last of duplicate keys. */
  function Member(members: seq<(string, Json)>, key: string): (r: Option<Json>)
    ensures r.Some? ==> exists k :: 0 <= k < |members| && members[k] == (key, r.value)
    ensures r.None? ==> forall k :: 0 <= k < |members| ==> members[k].0 != key
  {
    if members == [] then None
    else if members[|members| - 1].0 == key then Some(members[|members| - 1].1)
    else Member(members[..|members| - 1], key)
  }

  /** `parsed.fixes && Array.isArray(parsed.fixes) && parsed.fixes.length > 0`; on
      null the property read throws, which the outer catch turns into null too. */
  predicate HasFixes(j: Json) {
    j.JObject? &&
    match Member(j.members, "fixes")
    case Some(JArray(items)) => |items| > 0
    case _ => false
  }

  /** `!r.error && r.fullContent` */
  predicate Fixable(r: SourceResolver.SourceResult) {
    !Truthy(r.error) && Truthy(r.fullContent)
  }

  /** `sourceResults.filter((r) => !r.error && r.fullContent)` */
  function Fixables(sources: seq<SourceResolver.SourceResult>): (r: seq<SourceResolver.SourceResult>)
    ensures |r| == 0 <==> forall k :: 0 <= k < |sources| ==> !Fixable(sources[k])
    ensures forall x :: x in r ==> x in sources && Fixable(x)
  {
    if sources == [] then []
    else (if Fixable(sources[0]) then [sources[0]] else []) + Fixables(sources[1..])
  }

  /** What one call does: whether the model was asked, the strings given to
      JSON.parse in order, and the value returned. */
  datatype FixRun = FixRun(requested: bool, parseInputs: seq<string>, result: Option<Json>)

  function GenerateFixSpec(sources: seq<SourceResolver.SourceResult>, response: Result<string>,
                           parse: string -> Option<Json>): FixRun {
    if forall k :: 0 <= k < |sources| ==> !Fixable(sources[k]) then FixRun(false, [], None)
    else
      match response
      case Err(_) => FixRun(true, [], None)
      case Ok(text) =>
        var first := Trim(JsonText(text));
        match parse(first)
        case Some(j) => FixRun(true, [first], if HasFixes(j) then Some(j) else None)
        case None =>
          var repaired := RepairSpec(first);
          match parse(repaired)
          case Some(j) => FixRun(true, [first, repaired], if HasFixes(j) then Some(j) else None)
          case None => FixRun(true, [first, repaired], None)
  }

  /** generateFixWithClaude's control flow. `response` is the model's text, or Err
      when the request fails or the answer has no text block. */
  method GenerateFixWithClaude(sources: seq<SourceResolver.SourceResult>, response: Result<string>,
                               parse: string -> Option<Json>)
    returns (result: Option<Json>, parseInputs: seq<string>)
    ensures var run := GenerateFixSpec(sources, response, parse);
      result == run.result && parseInputs == run.parseInputs
  {
    parseInputs := [];
    var fixableFiles := Fixables(sources);
    if |fixableFiles| == 0 {
      return None, [];
    }
    if response.Err? {
      return None, [];
    }
    var jsonStr := JsonText(response.value);
    var parsed := parse(Trim(jsonStr));
    parseInputs := [Trim(jsonStr)];
    if parsed.None? {
      var repaired := Repair(jsonStr);
      parsed := parse(repaired);
      parseInputs := parseInputs + [repaired];
      if parsed.None? {
        return None, parseInputs;
      }
    }
    if !HasFixes(parsed.value) {
      return None, parseInputs;
    }
    result := parsed;
  }

  /** Without a fixable source the model is not asked and the result is null. */
  lemma {:induction false} NoFixableNoRequest(sources: seq<SourceResolver.SourceResult>, response: Result<string>,
                                              parse: string -> Option<Json>)
    ensures var run := GenerateFixSpec(sources, response, parse);
      !run.requested <==> forall k :: 0 <= k < |sources| ==> !Fixable(sources[k])
    ensures var run := GenerateFixSpec(sources, response, parse);
      !run.requested ==> run.result.None? && run.parseInputs == []
  {
  }

  /** The repair is tried once, and only after the trimmed text fails to parse. */
  lemma {:induction false} RepairOnlyAfterFailure(sources: seq<SourceResolver.SourceResult>, text: string,
                                                  parse: string -> Option<Json>)
    requires exists k :: 0 <= k < |sources| && Fixable(sources[k])
    ensures var run := GenerateFixSpec(sources, Ok(text), parse);
      var first := Trim(JsonText(text));
      1 <= |run.parseInputs| <= 2 && run.parseInputs[0] == first &&
      (|run.parseInputs| == 2 <==> parse(first).None?) &&
      (|run.parseInputs| == 2 ==> run.parseInputs[1] == RepairSpec(first))
  {
  }

  /** A returned value is what JSON.parse gave for the last string tried, and has
      a non-empty `fixes` array; a parse that yields such a value is returned. */
  lemma {:induction false} ResultIsValidated(sources: seq<SourceResolver.SourceResult>, response: Result<string>,
                                             parse: string -> Option<Json>)
    ensures var run := GenerateFixSpec(sources, response, parse);
      run.result.Some? ==>
        run.parseInputs != [] && parse(run.parseInputs[|run.parseInputs| - 1]) == run.result &&
        HasFixes(run.result.value)
    ensures var run := GenerateFixSpec(sources, response, parse);
      (run.parseInputs != [] && parse(run.parseInputs[|run.parseInputs| - 1]).Some? &&
       HasFixes(parse(run.parseInputs[|run.parseInputs| - 1]).value)) ==> run.result.Some?
  {
  }

  /** `fixes` that is missing, not an array, or empty is rejected. */
  lemma {:induction false} FixesRejected(members: seq<(string, Json)>)
    requires Member(members, "fixes").None? || !Member(members, "fixes").value.JArray? ||
             Member(members, "fixes").value.items == []
    ensures !HasFixes(JObject(members))
  {
  }
}

/** The numbered code excerpt fetchSourceFromGithub builds around a crash line
    (functions/index.js:273-288): with a line number, the lines from
    max(0, line - 20) up to, not including, min(length, line + 20), each numbered
    from 1 and the crash line marked with an arrow; without one (absent or 0, both
    falsy), the first 100 lines, numbered from 1 and unmarked. */
module Excerpt {
  import opened Text

  /** How far the window reaches on each side of the crash line. */
  const Radius: nat := 20
  /** How many lines the excerpt shows when there is no crash line. */
  const HeadLines: nat := 100

  const Arrow: string := " → "
  const NoMarker: string := "   "

  datatype ExcerptLine = ExcerptLine(marker: string, number: nat, text: string)

  /** Math.max(0, line - 20). */
  function WindowStart(line: nat): nat {
    if line >= Radius then line - Radius else 0
  }

  /** Math.min(lines.length, line + 20). */
  function WindowEnd(count: nat, line: nat): nat {
    if count < line + Radius then count else line + Radius
  }

  /** lines.slice(start, end).map((l, i) => ...) with `start + i + 1` as the number
      and the arrow on the entry numbered `line`. */
  function Numbered(lines: seq<string>, start: nat, end: nat, line: nat): (r: seq<ExcerptLine>)
    requires start <= end <= |lines|
    ensures |r| == end - start
    decreases end - start
  {
    if start == end then []
    else
      var number := start + 1;
      [ExcerptLine(if number == line then Arrow else NoMarker, number, lines[start])] +
      Numbered(lines, start + 1, end, line)
  }

  /** The entries of the excerpt of `lines` for crash line `line`. */
  function Window(lines: seq<string>, line: Option<nat>): seq<ExcerptLine> {
    if line.Some? && line.value != 0 then
      var start, end := WindowStart(line.value), WindowEnd(|lines|, line.value);
      if start < end then Numbered(lines, start, end, line.value) else []
    else
      Numbered(lines, 0, if |lines| < HeadLines then |lines| else HeadLines, 0)
  }

  /** `${marker}${lineNum}: ${l}` */
  function Render(e: ExcerptLine): string {
    e.marker + NatToString(e.number) + ": " + e.text
  }

  function RenderAll(entries: seq<ExcerptLine>): (r: seq<string>)
    ensures |r| == |entries|
    ensures forall k :: 0 <= k < |r| ==> r[k] == Render(entries[k])
  {
    if entries == [] then [] else [Render(entries[0])] + RenderAll(entries[1..])
  }

  /** The excerpt text: the rendered entries joined by newlines. */
  function ExcerptText(lines: seq<string>, line: Option<nat>): string {
    Join(RenderAll(Window(lines, line)), "\n")
  }

  /** The entry at position k of a numbered run shows line start + k, numbered
      start + k + 1, and carries the arrow exactly when that number is `line`. */
  lemma {:induction false} NumberedAt(lines: seq<string>, start: nat, end: nat, line: nat, k: nat)
    requires start <= end <= |lines| && k < end - start
    ensures Numbered(lines, start, end, line)[k] ==
      ExcerptLine(if start + k + 1 == line then Arrow else NoMarker, start + k + 1, lines[start + k])
    decreases k
  {
    if k > 0 {
      NumberedAt(lines, start + 1, end, line, k - 1);
    }
  }

  /** With a crash line: the window's bounds, its numbering and its text. */
  lemma {:induction false} WindowWithLine(lines: seq<string>, line: nat)
    requires line != 0
    ensures var r, start, end := Window(lines, Some(line)), WindowStart(line), WindowEnd(|lines|, line);
      start == (if line < Radius then 0 else line - Radius) &&
      end == (if |lines| < line + Radius then |lines| else line + Radius) &&
      |r| == (if start < end then end - start else 0) &&
      forall k :: 0 <= k < |r| ==>
        r[k].number == start + k + 1 && r[k].text == lines[start + k] &&
        (r[k].marker == Arrow <==> r[k].number == line) &&
        (r[k].marker == Arrow || r[k].marker == NoMarker)
  {
    var start, end := WindowStart(line), WindowEnd(|lines|, line);
    if start < end {
      forall k | 0 <= k < end - start
        ensures Window(lines, Some(line))[k].number == start + k + 1
        ensures Window(lines, Some(line))[k].text == lines[start + k]
        ensures Window(lines, Some(line))[k].marker == (if start + k + 1 == line then Arrow else NoMarker)
      {
        NumberedAt(lines, start, end, line, k);
      }
    }
  }

  /** Without a crash line: at most the first 100 lines, numbered from 1, none marked. */
  lemma {:induction false} WindowWithoutLine(lines: seq<string>, line: Option<nat>)
    requires line.None? || line.value == 0
    ensures var r := Window(lines, line);
      |r| == (if |lines| < HeadLines then |lines| else HeadLines) &&
      forall k :: 0 <= k < |r| ==> r[k] == ExcerptLine(NoMarker, k + 1, lines[k])
  {
    var n := if |lines| < HeadLines then |lines| else HeadLines;
    forall k | 0 <= k < n ensures Window(lines, line)[k] == ExcerptLine(NoMarker, k + 1, lines[k]) {
      NumberedAt(lines, 0, n, 0, k);
    }
  }

  /** The window never holds more than 40 lines around a crash line. */
  lemma {:induction false} WindowSize(lines: seq<string>, line: Option<nat>)
    ensures |Window(lines, line)| <= (if line.Some? && line.value != 0 then 2 * Radius else HeadLines)
  {
  }

  /** Exactly one entry is marked when the crash line exists in the file, and none
      when it lies past the end. */
  lemma {:induction false} MarkedCount(lines: seq<string>, line: nat)
    requires line != 0
    ensures |Marked(Window(lines, Some(line)))| == (if line <= |lines| then 1 else 0)
  {
    var start, end := WindowStart(line), WindowEnd(|lines|, line);
    if start < end {
      MarkedNumbered(lines, start, end, line);
      if line <= |lines| {
        assert start < line <= end;
      }
    }
  }

  /** The positions of the marked entries. */
  function Marked(r: seq<ExcerptLine>): (ks: seq<nat>)
    ensures forall m :: 0 <= m < |ks| ==> ks[m] < |r| && r[ks[m]].marker == Arrow
  {
    if r == [] then []
    else
      var rest := Marked(r[1..]);
      var shifted := seq(|rest|, m requires 0 <= m < |rest| => rest[m] + 1);
      (if r[0].marker == Arrow then [0] else []) + shifted
  }

  lemma {:induction false} MarkedNumbered(lines: seq<string>, start: nat, end: nat, line: nat)
    requires start <= end <= |lines|
    ensures |Marked(Numbered(lines, start, end, line))| == (if start < line <= end then 1 else 0)
    decreases end - start
  {
    if start < end {
      MarkedNumbered(lines, start + 1, end, line);
      var r := Numbered(lines, start, end, line);
      assert r[1..] == Numbered(lines, start + 1, end, line);
    }
  }

  /** Each excerpt entry becomes exactly one line of the excerpt text: splitting
      the text at newlines gives back the rendered entries. */
  lemma {:induction false} ExcerptTextLines(content: string, line: Option<nat>)
    requires Window(Split(content, '\n'), line) != []
    ensures Split(ExcerptText(Split(content, '\n'), line), '\n') == RenderAll(Window(Split(content, '\n'), line))
  {
    var lines := Split(content, '\n');
    var r := Window(lines, line);
    if line.Some? && line.value != 0 {
      WindowWithLine(lines, line.value);
    } else {
      WindowWithoutLine(lines, line);
    }
    forall k | 0 <= k < |r| ensures '\n' !in Render(r[k]) {
      var digits := NatToString(r[k].number);
      assert '\n' !in digits;
      assert '\n' !in r[k].text;
      assert Render(r[k]) == r[k].marker + digits + ": " + r[k].text;
    }
    JoinSplit(RenderAll(r), '\n');
  }
}

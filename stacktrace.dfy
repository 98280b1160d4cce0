/** parseIosStacktrace (functions/index.js:85-111): frames read from a stack
    trace by two global regular expressions under the `gi` flags, first every
    symbolicated frame
      /(\d+)\s+(\S+)\s+0x[\da-f]+\s+(.+?)\s+\+\s+\d+\s+\((\S+\.swift):(\d+)\)/gi
    then every crash-title location
      /(\w+\.swift)\s+line\s+(\d+)\s+in\s+(\S+)/gi
    which becomes a frame numbered 0 in module "App". */
module Stacktrace {
  import opened Text

  datatype Frame = Frame(frameNumber: nat, moduleName: string, methodName: string, file: string, line: nat)

  datatype FramePattern = Symbolicated | TitleLine

  /** One match: the index just past it and the frame built from it. */
  datatype FrameHit = FrameHit(end: nat, frame: Frame)

  /** What every frame of the title pattern looks like. */
  predicate TitleShaped(f: Frame) {
    f.frameNumber == 0 && f.moduleName == "App" && f.methodName != [] &&
    forall m :: 0 <= m < |f.methodName| ==> !IsSpace(f.methodName[m])
  }

  /** `\.swift:(\d+)\)` at `q`: the line number and the end of the match. */
  function SwiftLineParen(s: string, q: nat): Option<(nat, nat)>
    requires q <= |s|
  {
    if SwiftAt(s, q) && q + 6 < |s| && s[q + 6] == ':' then
      var r := RunEnd(s, q + 7, Digit);
      if r > q + 7 && r < |s| && s[r] == ')' then Some((DecimalValue(s[q + 7..r]), r + 1)) else None
    else None
  }

  /** `(\S+\.swift):(\d+)\)` with the file starting at `f0`: \S+ is greedy and gives
      back one character at a time, so the file ends at the LAST place `q` that lets
      the rest match. Tries q = `q`, q - 1, ..., f0 + 1. */
  function FileGroup(s: string, f0: nat, q: nat): (r: Option<(string, nat, nat)>)
    requires f0 < q <= |s|
    ensures r.Some? ==> f0 < r.value.2 <= |s| && EndsWithSwiftCI(r.value.0)
    decreases q
  {
    match SwiftLineParen(s, q)
    case Some(tail) =>
      assert s[f0..q + 6][q - f0..] == s[q..q + 6];
      Some((s[f0..q + 6], tail.0, tail.1))
    case None => if q == f0 + 1 then None else FileGroup(s, f0, q - 1)
  }

  /** `\s+\+\s+\d+\s+\((\S+\.swift):(\d+)\)` at `k`: file, line and end. */
  function SymbolTail(s: string, k: nat): (r: Option<(string, nat, nat)>)
    requires k <= |s|
    ensures r.Some? ==> k < r.value.2 <= |s| && EndsWithSwiftCI(r.value.0)
  {
    var t1 := RunEnd(s, k, Space);
    if t1 > k && t1 < |s| && s[t1] == '+' then
      var t2 := RunEnd(s, t1 + 1, Space);
      var t3 := RunEnd(s, t2, Digit);
      var t4 := RunEnd(s, t3, Space);
      if t2 > t1 + 1 && t3 > t2 && t4 > t3 && t4 < |s| && s[t4] == '(' then
        var q := RunEnd(s, t4 + 1, NonSpace);
        if q > t4 + 1 then FileGroup(s, t4 + 1, q) else None
      else None
    else None
  }

  /** `(.+?)` followed by the tail, the method starting at `ms`: the lazy group
      grows one character at a time (never across a line terminator) until the
      tail matches at `k`. */
  function LazyMethod(s: string, ms: nat, k: nat): (r: Option<(nat, (string, nat, nat))>)
    requires ms < k <= |s|
    requires forall m :: ms <= m < k - 1 ==> !IsLineTerminator(s[m])
    ensures r.Some? ==> k <= r.value.0 < r.value.1.2 <= |s| && EndsWithSwiftCI(r.value.1.0)
    ensures r.Some? ==> forall m :: ms <= m < r.value.0 ==> !IsLineTerminator(s[m])
    decreases |s| - k
  {
    if IsLineTerminator(s[k - 1]) then None
    else
      match SymbolTail(s, k)
      case Some(tail) => Some((k, tail))
      case None => if k == |s| then None else LazyMethod(s, ms, k + 1)
  }

  /** `\s+(.+?)` after the address, which ends at `e`: \s+ is greedy, so the method
      starts after all the white space first, then one character earlier at a time
      down to e + 1. Tries ms = `ms`, ms - 1, ..., e + 1. */
  function MethodFrom(s: string, e: nat, ms: nat): (r: Option<(nat, nat, (string, nat, nat))>)
    requires e < ms <= |s|
    ensures r.Some? ==> e < r.value.0 < r.value.1 < r.value.2.2 <= |s| && EndsWithSwiftCI(r.value.2.0)
    decreases ms
  {
    var found := if ms < |s| then LazyMethod(s, ms, ms + 1) else None;
    match found
    case Some(hit) => Some((ms, hit.0, hit.1))
    case None => if ms == e + 1 then None else MethodFrom(s, e, ms - 1)
  }

  /** The match the symbolicated-frame pattern has when the engine starts at `i`. */
  function SymbolicatedAt(s: string, i: nat): (h: Option<FrameHit>)
    requires i <= |s|
    ensures h.Some? ==> i < h.value.end <= |s| && EndsWithSwiftCI(h.value.frame.file)
  {
    var a := RunEnd(s, i, Digit);
    var b := RunEnd(s, a, Space);
    var c := RunEnd(s, b, NonSpace);
    var d := RunEnd(s, c, Space);
    if a > i && b > a && c > b && d > c && HexPrefixAt(s, d) then
      var e := RunEnd(s, d + 2, Hex);
      var w := RunEnd(s, e, Space);
      if e > d + 2 && w > e then
        match MethodFrom(s, e, w)
        case Some(m) =>
          Some(FrameHit(m.2.2, Frame(DecimalValue(s[i..a]), s[b..c], Trim(s[m.0..m.1]), m.2.0, m.2.1)))
        case None => None
      else None
    else None
  }

  /** The match the title pattern has when the engine starts at `i`: every
      quantifier in it is followed by a character its class excludes, so none
      gives anything back. */
  function TitleLineAt(s: string, i: nat): (h: Option<FrameHit>)
    requires i <= |s|
    ensures h.Some? ==> i < h.value.end <= |s| && TitleShaped(h.value.frame)
  {
    var j := RunEnd(s, i, Word);
    if j > i && SwiftAt(s, j) then
      var a := j + 6;
      var b := RunEnd(s, a, Space);
      if b > a && LineWordAt(s, b) then
        var c := RunEnd(s, b + 4, Space);
        var d := RunEnd(s, c, Digit);
        var f := RunEnd(s, d, Space);
        if c > b + 4 && d > c && f > d && InWordAt(s, f) then
          var g := RunEnd(s, f + 2, Space);
          var k := RunEnd(s, g, NonSpace);
          if g > f + 2 && k > g then
            assert s[i..a][j - i..] == s[j..a];
            RunEndAll(s, g, NonSpace);
            Some(FrameHit(k, Frame(0, "App", s[g..k], s[i..a], DecimalValue(s[c..d]))))
          else None
        else None
      else None
    else None
  }

  function FrameAt(p: FramePattern, s: string, i: nat): (h: Option<FrameHit>)
    requires i <= |s|
    ensures h.Some? ==> i < h.value.end <= |s| && EndsWithSwiftCI(h.value.frame.file)
    ensures h.Some? && p == TitleLine ==> TitleShaped(h.value.frame)
  {
    match p
    case Symbolicated => SymbolicatedAt(s, i)
    case TitleLine => TitleLineAt(s, i)
  }

  /** RegExp.prototype.exec with the `g` flag. */
  function NextFrame(p: FramePattern, s: string, from: nat): (h: Option<FrameHit>)
    requires from <= |s|
    ensures h.Some? ==> from < h.value.end <= |s|
    decreases |s| - from
  {
    match FrameAt(p, s, from)
    case Some(hit) => Some(hit)
    case None => if from == |s| then None else NextFrame(p, s, from + 1)
  }

  /** The frames of every match a global exec loop finds from lastIndex `from`. */
  function AllFrames(p: FramePattern, s: string, from: nat): (r: seq<Frame>)
    requires from <= |s|
    decreases |s| - from
  {
    match NextFrame(p, s, from)
    case None => []
    case Some(hit) => [hit.frame] + AllFrames(p, s, hit.end)
  }

  /** parseIosStacktrace: symbolicated frames first, then the title-pattern frames;
      an absent or empty trace gives no frame. */
  method ParseIosStacktrace(stacktrace: Option<string>) returns (frames: seq<Frame>)
    ensures !Truthy(stacktrace) ==> frames == []
    ensures Truthy(stacktrace) ==>
      frames == AllFrames(Symbolicated, stacktrace.value, 0) + AllFrames(TitleLine, stacktrace.value, 0)
  {
    if !Truthy(stacktrace) {
      return [];
    }
    var s := stacktrace.value;
    ghost var sym := AllFrames(Symbolicated, s, 0);
    frames := PushFrames(Symbolicated, s, []);
    assert frames == sym by { assert [] + sym == sym; }
    frames := PushFrames(TitleLine, s, frames);
  }

  /** One `while ((match = re.exec(stacktrace)) !== null) frames.push(...)` loop. */
  method PushFrames(p: FramePattern, s: string, frames0: seq<Frame>) returns (frames: seq<Frame>)
    ensures frames == frames0 + AllFrames(p, s, 0)
  {
    frames := frames0;
    var lastIndex := 0;
    var m := NextFrame(p, s, lastIndex);
    while m.Some?
      invariant lastIndex <= |s|
      invariant m == NextFrame(p, s, lastIndex)
      invariant AppendEach(frames, AllFrames(p, s, lastIndex)) == AppendEach(frames0, AllFrames(p, s, 0))
      decreases |s| - lastIndex
    {
      ghost var rest := AllFrames(p, s, m.value.end);
      assert ([m.value.frame] + rest)[1..] == rest;
      frames := frames + [m.value.frame];
      lastIndex := m.value.end;
      m := NextFrame(p, s, lastIndex);
    }
    AppendEachConcat(frames0, AllFrames(p, s, 0));
  }

  /** Every frame exec finds names a `.swift` file (in any case), and every
      frame of the title pattern has the title shape. */
  lemma {:induction false} NextFrameShape(p: FramePattern, s: string, from: nat)
    requires from <= |s|
    ensures var h := NextFrame(p, s, from);
      h.Some? ==> EndsWithSwiftCI(h.value.frame.file) && (p == TitleLine ==> TitleShaped(h.value.frame))
    decreases |s| - from
  {
    if FrameAt(p, s, from).None? && from < |s| {
      NextFrameShape(p, s, from + 1);
    }
  }

  lemma {:induction false} AllFramesShape(p: FramePattern, s: string, from: nat)
    requires from <= |s|
    ensures forall f :: f in AllFrames(p, s, from) ==> EndsWithSwiftCI(f.file)
    ensures p == TitleLine ==> forall f :: f in AllFrames(p, s, from) ==> TitleShaped(f)
    decreases |s| - from
  {
    var h := NextFrame(p, s, from);
    if h.Some? {
      NextFrameShape(p, s, from);
      AllFramesShape(p, s, h.value.end);
    }
  }

  /** The frames parseIosStacktrace returns after the symbolicated ones are exactly
      the title-pattern frames: numbered 0, in module "App", with a non-empty method
      name free of white space. */
  lemma {:induction false} TitleFramesShape(s: string)
    ensures var sym, title := AllFrames(Symbolicated, s, 0), AllFrames(TitleLine, s, 0);
      forall k :: |sym| <= k < |sym| + |title| ==> TitleShaped((sym + title)[k])
  {
    var sym, title := AllFrames(Symbolicated, s, 0), AllFrames(TitleLine, s, 0);
    AllFramesShape(TitleLine, s, 0);
    forall k | |sym| <= k < |sym| + |title| ensures TitleShaped((sym + title)[k]) {
      assert (sym + title)[k] == title[k - |sym|];
      assert title[k - |sym|] in title;
    }
  }
}

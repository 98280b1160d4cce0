/** Character classes, scans and string helpers with the meaning JavaScript gives
    them in functions/index.js: the regular-expression classes \w, \d, \s, the
    line terminators that `.` refuses, String.prototype.trim, split("\n"),
    join("\n") and parseInt on a run of decimal digits. */
module Text {

  datatype Option<T> = None | Some(value: T)

  /** The outcome of a call into a service the model does not see: a value, or
      the message of the error it threw. */
  datatype Result<T> = Ok(value: T) | Err(message: string)

  /** JavaScript truthiness of an optional string: `null`, `undefined` and "" are falsy. */
  predicate Truthy(s: Option<string>) {
    s.Some? && s.value != ""
  }

  /** `s || d` on an optional string. */
  function OrElse(s: Option<string>, d: string): (r: string)
    ensures Truthy(s) ==> r == s.value
    ensures !Truthy(s) ==> r == d
  {
    if Truthy(s) then s.value else d
  }

  /** The character classes the source's regular expressions use. */
  datatype Class = Word | Digit | Hex | Space | NonSpace | NotLineTerminator | Alnum

  predicate IsDigit(c: char) { '0' <= c <= '9' }

  predicate IsAlnum(c: char) { 'a' <= c <= 'z' || 'A' <= c <= 'Z' || IsDigit(c) }

  /** \w outside unicode mode: [A-Za-z0-9_]. */
  predicate IsWordChar(c: char) { IsAlnum(c) || c == '_' }

  /** [\da-f] under the `i` flag. */
  predicate IsHexDigit(c: char) { IsDigit(c) || 'a' <= c <= 'f' || 'A' <= c <= 'F' }

  /** The line terminators: LF, CR, LINE SEPARATOR, PARAGRAPH SEPARATOR. */
  predicate IsLineTerminator(c: char) {
    c == '\n' || c == '\r' || c == '\U{2028}' || c == '\U{2029}'
  }

  /** \s, which is also the set String.prototype.trim removes: the white-space
      characters (tab, vertical tab, form feed, no-break space, the byte-order mark
      and the space separators) and the line terminators. */
  predicate IsSpace(c: char) {
    c == '\t' || c == '\U{000B}' || c == '\U{000C}' || c == ' ' || c == '\U{00A0}' ||
    c == '\U{1680}' || ('\U{2000}' <= c <= '\U{200A}') || c == '\U{202F}' || c == '\U{205F}' ||
    c == '\U{3000}' || c == '\U{FEFF}' || IsLineTerminator(c)
  }

  predicate InClass(c: char, k: Class) {
    match k
    case Word => IsWordChar(c)
    case Digit => IsDigit(c)
    case Hex => IsHexDigit(c)
    case Space => IsSpace(c)
    case NonSpace => !IsSpace(c)
    case NotLineTerminator => !IsLineTerminator(c)
    case Alnum => IsAlnum(c)
  }

  /** The end of the longest run of class `k` starting at `i`: what a greedy `k+`
      consumes. */
  function RunEnd(s: string, i: nat, k: Class): (j: nat)
    requires i <= |s|
    ensures i <= j <= |s|
    ensures j == |s| || !InClass(s[j], k)
    decreases |s| - i
  {
    if i == |s| || !InClass(s[i], k) then i else RunEnd(s, i + 1, k)
  }

  /** Everything a greedy run consumes is in its class. */
  lemma {:induction false} RunEndAll(s: string, i: nat, k: Class)
    requires i <= |s|
    ensures forall m :: i <= m < RunEnd(s, i, k) ==> InClass(s[m], k)
    decreases |s| - i
  {
    if i < |s| && InClass(s[i], k) {
      RunEndAll(s, i + 1, k);
    }
  }

  /** A run that starts with a character of its class ends where the rest of it ends. */
  lemma {:induction false} RunEndStep(s: string, i: nat, k: Class)
    requires i < |s|
    ensures InClass(s[i], k) ==> RunEnd(s, i, k) == RunEnd(s, i + 1, k)
  {
  }

  /** A run ends at the same place from any point inside it. */
  lemma {:induction false} RunEndInside(s: string, i: nat, m: nat, k: Class)
    requires i <= |s| && i <= m <= RunEnd(s, i, k)
    ensures RunEnd(s, m, k) == RunEnd(s, i, k)
    decreases m - i
  {
    if m > i {
      RunEndInside(s, i + 1, m, k);
    }
  }

  /** ASCII case folding, the only folding the `i` flag does outside unicode mode
      for the letters the patterns contain. */
  function Lower(c: char): char {
    if 'A' <= c <= 'Z' then (c as int + 32) as char else c
  }

  /** `lit` occurs in `s` at `i`, exactly. */
  predicate HasAt(s: string, i: nat, lit: string) {
    i + |lit| <= |s| && s[i..i + |lit|] == lit
  }

  predicate EndsWith(s: string, suffix: string) {
    |suffix| <= |s| && s[|s| - |suffix|..] == suffix
  }

  // The literal atoms of the patterns that carry the `i` flag, each matched
  // ignoring ASCII case.

  /** `.swift` at `i`, in any case. */
  predicate SwiftAt(s: string, i: nat) {
    i + 6 <= |s| && s[i] == '.' && Lower(s[i + 1]) == 's' && Lower(s[i + 2]) == 'w' &&
    Lower(s[i + 3]) == 'i' && Lower(s[i + 4]) == 'f' && Lower(s[i + 5]) == 't'
  }

  /** `s` ends in `.swift`, in any case. */
  predicate EndsWithSwiftCI(s: string) {
    |s| >= 6 && SwiftAt(s, |s| - 6)
  }

  /** `line` at `i`, in any case. */
  predicate LineWordAt(s: string, i: nat) {
    i + 4 <= |s| && Lower(s[i]) == 'l' && Lower(s[i + 1]) == 'i' && Lower(s[i + 2]) == 'n' &&
    Lower(s[i + 3]) == 'e'
  }

  /** `in` at `i`, in any case. */
  predicate InWordAt(s: string, i: nat) {
    i + 2 <= |s| && Lower(s[i]) == 'i' && Lower(s[i + 1]) == 'n'
  }

  /** `0x` at `i`, in any case. */
  predicate HexPrefixAt(s: string, i: nat) {
    i + 2 <= |s| && s[i] == '0' && Lower(s[i + 1]) == 'x'
  }

  /** An exact `.swift` suffix is one in any case. */
  lemma {:induction false} EndsWithSwift(s: string)
    requires EndsWith(s, ".swift")
    ensures EndsWithSwiftCI(s)
  {
    assert s[|s| - 6..][0] == '.';
  }

  predicate Contains(s: string, c: char) {
    exists m :: 0 <= m < |s| && s[m] == c
  }

  /** Value of a digit string, as parseInt reads it. */
  function DecimalValue(s: string): nat
  {
    if s == [] then 0 else DecimalValue(s[..|s| - 1]) * 10 + DigitValue(s[|s| - 1])
  }

  function DigitValue(c: char): nat
  {
    if IsDigit(c) then c as int - '0' as int else 0
  }

  /** The decimal rendering of a number, as a template literal writes it. */
  function NatToString(n: nat): (r: string)
    ensures |r| > 0
    ensures forall m :: 0 <= m < |r| ==> IsDigit(r[m])
    ensures |r| > 1 ==> r[0] != '0'
  {
    if n < 10 then [('0' as int + n) as char]
    else NatToString(n / 10) + [('0' as int + n % 10) as char]
  }

  /** Rendering a number and reading it back gives the number. */
  lemma {:induction false} DecimalRoundTrip(n: nat)
    ensures DecimalValue(NatToString(n)) == n
  {
    var r := NatToString(n);
    if n >= 10 {
      DecimalRoundTrip(n / 10);
      assert r[..|r| - 1] == NatToString(n / 10);
    }
  }

  lemma {:induction false} NatToStringInjective(a: nat, b: nat)
    requires NatToString(a) == NatToString(b)
    ensures a == b
  {
    DecimalRoundTrip(a);
    DecimalRoundTrip(b);
  }

  /** The index just past the leading white space. */
  function TrimStartIndex(s: string): (i: nat)
    ensures i <= |s|
    ensures forall m :: 0 <= m < i ==> IsSpace(s[m])
    ensures i == |s| || !IsSpace(s[i])
  {
    RunEndAll(s, 0, Space);
    RunEnd(s, 0, Space)
  }

  /** The index of the end of `s` once trailing white space is removed. */
  function TrimEndIndex(s: string, j: nat): (e: nat)
    requires j <= |s|
    ensures e <= j
    ensures forall m :: e <= m < j ==> IsSpace(s[m])
    ensures e == 0 || !IsSpace(s[e - 1])
  {
    if j == 0 || !IsSpace(s[j - 1]) then j else TrimEndIndex(s, j - 1)
  }

  /** String.prototype.trim. */
  function Trim(s: string): (r: string)
    ensures r == [] || (!IsSpace(r[0]) && !IsSpace(r[|r| - 1]))
    ensures TrimStartIndex(s) + |r| <= |s| && r == s[TrimStartIndex(s)..TrimStartIndex(s) + |r|]
    ensures forall m :: 0 <= m < TrimStartIndex(s) ==> IsSpace(s[m])
    ensures forall m :: TrimStartIndex(s) + |r| <= m < |s| ==> IsSpace(s[m])
  {
    var i := TrimStartIndex(s);
    var e := TrimEndIndex(s, |s|);
    if e <= i then [] else s[i..e]
  }

  /** A string that neither starts nor ends with white space is left alone. */
  lemma {:induction false} TrimNoop(s: string)
    requires s == [] || (!IsSpace(s[0]) && !IsSpace(s[|s| - 1]))
    ensures Trim(s) == s
  {
    if s != [] {
      assert TrimStartIndex(s) == 0;
      assert TrimEndIndex(s, |s|) == |s|;
    }
  }

  lemma {:induction false} TrimIdempotent(s: string)
    ensures Trim(Trim(s)) == Trim(s)
  {
    TrimNoop(Trim(s));
  }

  /** The index of the first `c` at or after `i`, or |s|. */
  function IndexOfFrom(s: string, c: char, i: nat): (j: nat)
    requires i <= |s|
    ensures i <= j <= |s|
    ensures forall m :: i <= m < j ==> s[m] != c
    ensures j < |s| ==> s[j] == c
    decreases |s| - i
  {
    if i == |s| || s[i] == c then i else IndexOfFrom(s, c, i + 1)
  }

  /** s.split(sep) for a one-character separator: always at least one piece. */
  function Split(s: string, sep: char): (r: seq<string>)
    ensures |r| > 0
    ensures forall k :: 0 <= k < |r| ==> sep !in r[k]
    decreases |s|
  {
    var j := IndexOfFrom(s, sep, 0);
    if j == |s| then [s] else [s[..j]] + Split(s[j + 1..], sep)
  }

  /** pieces.join(sep). */
  function Join(pieces: seq<string>, sep: string): string {
    if pieces == [] then []
    else if |pieces| == 1 then pieces[0]
    else pieces[0] + sep + Join(pieces[1..], sep)
  }

  /** Joining the pieces of a split with the same separator gives back the string. */
  lemma {:induction false} SplitJoin(s: string, sep: char)
    ensures Join(Split(s, sep), [sep]) == s
    decreases |s|
  {
    var j := IndexOfFrom(s, sep, 0);
    if j < |s| {
      SplitJoin(s[j + 1..], sep);
      assert s == s[..j] + [sep] + s[j + 1..];
    }
  }

  /** Splitting pieces joined with a separator none of them contains gives the
      pieces back. */
  lemma {:induction false} JoinSplit(pieces: seq<string>, sep: char)
    requires |pieces| > 0
    requires forall k :: 0 <= k < |pieces| ==> sep !in pieces[k]
    ensures Split(Join(pieces, [sep]), sep) == pieces
    decreases |pieces|
  {
    var s := Join(pieces, [sep]);
    var j := IndexOfFrom(s, sep, 0);
    if |pieces| == 1 {
      assert j == |s|;
    } else {
      var p0, rest := pieces[0], Join(pieces[1..], [sep]);
      assert s == p0 + [sep] + rest;
      assert s[|p0|] == sep;
      assert j == |p0|;
      assert s[..j] == p0;
      assert s[j + 1..] == rest;
      JoinSplit(pieces[1..], sep);
    }
  }

  /** The last piece of s.split("/"), which the source calls the file name: the
      whole path, or what follows its last `/`. */
  function Basename(s: string): (r: string)
    ensures '/' !in r
    ensures EndsWith(s, r)
    ensures |r| < |s| ==> s[|s| - |r| - 1] == '/'
  {
    LastPieceNoSep(s, '/');
    SplitLastIsSuffix(s, '/');
    LastPiece(s, '/')
  }

  /** `s.split(sep).pop()`: what follows the last separator (see LastPieceIsPop). */
  function LastPiece(s: string, sep: char): string
    decreases |s|
  {
    var j := IndexOfFrom(s, sep, 0);
    if j == |s| then s else LastPiece(s[j + 1..], sep)
  }

  /** LastPiece is the last element `split` gives. */
  lemma {:induction false} LastPieceIsPop(s: string, sep: char)
    ensures LastPiece(s, sep) == Split(s, sep)[|Split(s, sep)| - 1]
    decreases |s|
  {
    var j := IndexOfFrom(s, sep, 0);
    if j < |s| {
      LastPieceIsPop(s[j + 1..], sep);
      assert Split(s, sep) == [s[..j]] + Split(s[j + 1..], sep);
    }
  }

  /** The last piece holds no separator. */
  lemma {:induction false} LastPieceNoSep(s: string, sep: char)
    ensures sep !in LastPiece(s, sep)
    decreases |s|
  {
    var j := IndexOfFrom(s, sep, 0);
    if j < |s| {
      LastPieceNoSep(s[j + 1..], sep);
    }
  }

  /** The last piece of a split ends the text and, unless it is all of it, follows
      a separator. */
  lemma {:induction false} SplitLastIsSuffix(s: string, sep: char)
    ensures EndsWith(s, LastPiece(s, sep))
    ensures |LastPiece(s, sep)| < |s| ==> s[|s| - |LastPiece(s, sep)| - 1] == sep
    decreases |s|
  {
    var j := IndexOfFrom(s, sep, 0);
    if j < |s| {
      SplitLastIsSuffix(s[j + 1..], sep);
      LastPieceAfterSep(s, sep, j);
    } else {
      assert LastPiece(s, sep) == s;
      assert s[|s| - |s|..] == s;
    }
  }

  /** The step of SplitLastIsSuffix past the first separator, at `j`. */
  lemma {:induction false} LastPieceAfterSep(s: string, sep: char, j: nat)
    requires j == IndexOfFrom(s, sep, 0) && j < |s|
    requires EndsWith(s[j + 1..], LastPiece(s[j + 1..], sep))
    requires |LastPiece(s[j + 1..], sep)| < |s| - j - 1 ==>
      s[j + 1..][|s| - j - 1 - |LastPiece(s[j + 1..], sep)| - 1] == sep
    ensures EndsWith(s, LastPiece(s, sep))
    ensures |LastPiece(s, sep)| < |s| && s[|s| - |LastPiece(s, sep)| - 1] == sep
  {
    var t := LastPiece(s[j + 1..], sep);
    assert LastPiece(s, sep) == t;
    SuffixOfTail(s, j + 1, t, sep);
  }

  /** A suffix of the text after a separator at `d - 1` that follows a separator
      unless it is that whole text, is a suffix of `s` that follows a separator. */
  lemma {:induction false} SuffixOfTail(s: string, d: nat, t: string, sep: char)
    requires 0 < d <= |s| && s[d - 1] == sep
    requires EndsWith(s[d..], t)
    requires |t| < |s| - d ==> s[d..][|s| - d - |t| - 1] == sep
    ensures EndsWith(s, t)
    ensures |t| < |s| && s[|s| - |t| - 1] == sep
  {
    var tail := s[d..];
    var k := |tail| - |t|;
    assert tail[k..] == t;
    assert s[d + k..] == tail[k..];
    assert d + k == |s| - |t|;
    if k > 0 {
      assert tail[k - 1] == s[d + k - 1];
    }
  }




  /** s.slice(0, n) for n >= 0. */
  function Prefix<T>(s: seq<T>, n: nat): (r: seq<T>)
    ensures |r| == if n < |s| then n else |s|
    ensures r == s[..|r|]
  {
    if n < |s| then s[..n] else s
  }

  /** `for (x of more) acc.push(x)`: one push at a time, the shape an `exec` loop has. */
  function AppendEach<T>(acc: seq<T>, more: seq<T>): seq<T>
    decreases |more|
  {
    if more == [] then acc else AppendEach(acc + [more[0]], more[1..])
  }

  /** Pushing the elements one at a time appends them all, in order. */
  lemma {:induction false} AppendEachConcat<T>(acc: seq<T>, more: seq<T>)
    ensures AppendEach(acc, more) == acc + more
    decreases |more|
  {
    if more != [] {
      AppendEachConcat(acc + [more[0]], more[1..]);
      assert acc + [more[0]] + more[1..] == acc + more;
    }
  }

  /** `n` copies of `c`. */
  function Repeat(c: char, n: nat): (r: string)
    ensures |r| == n
    ensures forall m :: 0 <= m < n ==> r[m] == c
  {
    if n == 0 then [] else Repeat(c, n - 1) + [c]
  }

  /** The number of occurrences of `c` in `s`: (s.match(/c/g) || []).length. */
  function Count(s: string, c: char): nat {
    if s == [] then 0 else Count(s[..|s| - 1], c) + (if s[|s| - 1] == c then 1 else 0)
  }

  lemma {:induction false} CountAppend(a: string, b: string, c: char)
    ensures Count(a + b, c) == Count(a, c) + Count(b, c)
    decreases |b|
  {
    if b != [] {
      CountAppend(a, b[..|b| - 1], c);
      assert (a + b)[..|a + b| - 1] == a + b[..|b| - 1];
    } else {
      assert a + b == a;
    }
  }

  lemma {:induction false} CountRepeat(c: char, d: char, n: nat)
    ensures Count(Repeat(c, n), d) == if c == d then n else 0
  {
    if n > 0 {
      CountRepeat(c, d, n - 1);
      assert Repeat(c, n)[..n - 1] == Repeat(c, n - 1);
    }
  }

  /** Is `sub` obtained from `s` by dropping elements, keeping the order? */
  predicate IsSubseq<T(==)>(sub: seq<T>, s: seq<T>)
    decreases |s|
  {
    if sub == [] then true
    else if s == [] then false
    else if sub[0] == s[0] then IsSubseq(sub[1..], s[1..])
    else IsSubseq(sub, s[1..])
  }

  lemma {:induction false} IsSubseqMembers<T>(sub: seq<T>, s: seq<T>)
    requires IsSubseq(sub, s)
    ensures forall x :: x in sub ==> x in s
    decreases |s|
  {
    if sub != [] && s != [] {
      if sub[0] == s[0] {
        IsSubseqMembers(sub[1..], s[1..]);
        assert forall x :: x in sub ==> x == sub[0] || x in sub[1..];
      } else {
        IsSubseqMembers(sub, s[1..]);
      }
    }
  }

  lemma {:induction false} IsSubseqDropFirst<T>(sub: seq<T>, s: seq<T>)
    requires sub != [] && IsSubseq(sub, s)
    ensures IsSubseq(sub[1..], s)
    decreases |s|, 0
  {
    if sub[0] == s[0] {
      IsSubseqWeaken(sub[1..], s[1..], s[0]);
    } else {
      IsSubseqDropFirst(sub, s[1..]);
      IsSubseqWeaken(sub[1..], s[1..], s[0]);
    }
  }

  lemma {:induction false} IsSubseqWeaken<T>(sub: seq<T>, s: seq<T>, x: T)
    requires IsSubseq(sub, s)
    ensures IsSubseq(sub, [x] + s)
    decreases |s|, 1
  {
    if sub != [] {
      assert ([x] + s)[1..] == s;
      if sub[0] == x {
        IsSubseqDropFirst(sub, s);
      }
    }
  }

  lemma {:induction false} IsSubseqConcat<T>(a: seq<T>, x: seq<T>, b: seq<T>, y: seq<T>)
    requires IsSubseq(a, x) && IsSubseq(b, y)
    ensures IsSubseq(a + b, x + y)
    decreases |x|
  {
    if x == [] {
      assert a == [];
      assert a + b == b && x + y == y;
    } else if a != [] && a[0] == x[0] {
      IsSubseqConcat(a[1..], x[1..], b, y);
      assert (a + b)[1..] == a[1..] + b;
      assert (x + y)[1..] == x[1..] + y;
    } else {
      IsSubseqConcat(a, x[1..], b, y);
      assert (x + y)[1..] == x[1..] + y;
      if a == [] {
        assert a + b == b;
        IsSubseqWeakenAll(b, x, y);
      }
    }
  }

  lemma {:induction false} IsSubseqWeakenAll<T>(b: seq<T>, x: seq<T>, y: seq<T>)
    requires IsSubseq(b, y)
    ensures IsSubseq(b, x + y)
    decreases |x|
  {
    if x != [] {
      IsSubseqWeakenAll(b, x[1..], y);
      IsSubseqWeaken(b, x[1..] + y, x[0]);
      assert [x[0]] + (x[1..] + y) == x + y;
    } else {
      assert x + y == y;
    }
  }
}

/** Strings and characters with the meaning the gateway's JavaScript gives them:
    the `\s`, `\d` and `.` classes of its regular expressions, `String.prototype.trim`,
    `split` on one character and on `/\s+/`, and leftmost regular-expression search. */
module Text {

  datatype Option<+T> = None | Some(value: T)

  /** ECMAScript LineTerminator: the characters that `.` does not match. */
  predicate IsLineTerminator(c: char) {
    c == '\n' || c == '\r' || c == '\U{2028}' || c == '\U{2029}'
  }

  /** ECMAScript WhiteSpace or LineTerminator: the class `\s`, and what `trim()` removes. */
  predicate IsSpace(c: char) {
    || IsLineTerminator(c)
    || c == '\t' || c == '\U{000B}' || c == '\U{000C}' || c == ' '
    || c == '\U{00A0}' || c == '\U{1680}' || '\U{2000}' <= c <= '\U{200A}'
    || c == '\U{202F}' || c == '\U{205F}' || c == '\U{3000}' || c == '\U{FEFF}'
  }

  /** The class `\d`. */
  predicate IsDigit(c: char) { '0' <= c <= '9' }

  predicate IsHexDigit(c: char) { IsDigit(c) || 'a' <= c <= 'f' || 'A' <= c <= 'F' }

  /** `[0-9.]` */
  predicate IsDigitOrDot(c: char) { IsDigit(c) || c == '.' }

  /** `[A-Za-z0-9 _.-]` */
  predicate IsNameChar(c: char) {
    'A' <= c <= 'Z' || 'a' <= c <= 'z' || IsDigit(c) || c == ' ' || c == '_' || c == '.' || c == '-'
  }

  /** `[A-Za-z0-9_-]` */
  predicate IsStatusChar(c: char) {
    'A' <= c <= 'Z' || 'a' <= c <= 'z' || IsDigit(c) || c == '_' || c == '-'
  }

  /** The character classes the gateway's patterns repeat with `+` or `*`. */
  datatype CharClass = Space | NonSpace | Dot | Digit | HexDigit | DigitOrDot | NameChar | StatusChar

  predicate In(c: char, k: CharClass) {
    match k
    case Space => IsSpace(c)
    case NonSpace => !IsSpace(c)
    case Dot => !IsLineTerminator(c)
    case Digit => IsDigit(c)
    case HexDigit => IsHexDigit(c)
    case DigitOrDot => IsDigitOrDot(c)
    case NameChar => IsNameChar(c)
    case StatusChar => IsStatusChar(c)
  }

  predicate AllIn(s: string, p: CharClass) { forall k | 0 <= k < |s| :: In(s[k], p) }

  predicate AllDigits(s: string) { forall k | 0 <= k < |s| :: IsDigit(s[k]) }

  predicate AllSpace(s: string) { forall k | 0 <= k < |s| :: IsSpace(s[k]) }

  predicate NoSpace(s: string) { forall k | 0 <= k < |s| :: !IsSpace(s[k]) }

  /** Case folding of a non-unicode `/i` pattern: only ASCII letters fold, because
      ECMAScript never canonicalises a non-ASCII character to an ASCII one. */
  function LowerAscii(c: char): char {
    if 'A' <= c <= 'Z' then (c as int + 32) as char else c
  }

  /** `lit` occurs in `s` starting at position `i`. */
  predicate LiteralAt(s: string, i: nat, lit: string) {
    i + |lit| <= |s| && s[i..i + |lit|] == lit
  }

  /** The lower-case pattern text `lit` matches `s` at `i` under `/i`. */
  predicate LiteralAtCi(s: string, i: nat, lit: string) {
    i + |lit| <= |s| && forall k | 0 <= k < |lit| :: LowerAscii(s[i + k]) == lit[k]
  }

  /** An occurrence gives every character of the literal at its place. */
  lemma LiteralChars(s: string, i: nat, lit: string)
    requires LiteralAt(s, i, lit)
    ensures forall k | 0 <= k < |lit| :: s[i + k] == lit[k]
  {
    forall k | 0 <= k < |lit|
      ensures s[i + k] == lit[k]
    {
      assert s[i..i + |lit|][k] == s[i + k];
    }
  }

  /** A lower-case literal written in the text also matches under `/i`. */
  lemma LiteralMatchesCi(s: string, i: nat, lit: string)
    requires LiteralAt(s, i, lit)
    requires forall k | 0 <= k < |lit| :: !('A' <= lit[k] <= 'Z')
    ensures LiteralAtCi(s, i, lit)
  {
    LiteralChars(s, i, lit);
  }

  /** An occurrence of `x + y` is an occurrence of `x` followed by one of `y`. */
  lemma LiteralAtConcat(s: string, i: nat, x: string, y: string)
    ensures LiteralAt(s, i, x + y) <==> LiteralAt(s, i, x) && LiteralAt(s, i + |x|, y)
  {
    if LiteralAt(s, i, x) && LiteralAt(s, i + |x|, y) {
      assert s[i..i + |x + y|] == s[i..i + |x|] + s[i + |x|..i + |x| + |y|];
    }
    if LiteralAt(s, i, x + y) {
      assert s[i..i + |x|] == s[i..i + |x + y|][..|x|];
      assert s[i + |x|..i + |x| + |y|] == s[i..i + |x + y|][|x|..];
    }
  }

  /** Length of the maximal run of characters satisfying `p` from position `j`:
      what a greedy `[...]+` or `\s*` consumes there. */
  function Span(s: string, j: nat, p: CharClass): (n: nat)
    requires j <= |s|
    ensures j + n <= |s|
    ensures j + n == |s| || !In(s[j + n], p)
    decreases |s| - j
  {
    if j < |s| && In(s[j], p) then 1 + Span(s, j + 1, p) else 0
  }

  /** A maximal run holds only characters of its class. */
  lemma {:induction false} SpanAll(s: string, j: nat, p: CharClass)
    requires j <= |s|
    ensures forall k | j <= k < j + Span(s, j, p) :: In(s[k], p)
    ensures AllIn(s[j..j + Span(s, j, p)], p)
    decreases |s| - j
  {
    if j < |s| && In(s[j], p) {
      SpanAll(s, j + 1, p);
    }
  }

  /** Where `\s*` from `j` stops. */
  function SkipSpace(s: string, j: nat): (k: nat)
    requires j <= |s|
    ensures j <= k <= |s|
  {
    j + Span(s, j, Space)
  }

  /** `\s*` matches nothing in front of a character that is not whitespace. */
  lemma SkipNone(s: string, j: nat)
    requires j < |s| && !IsSpace(s[j])
    ensures SkipSpace(s, j) == j
  {
  }

  /** A run of `p`-characters written at `j` is where the maximal run from `j`
      starts; the maximal run is exactly it when the next character fails `p`. */
  lemma RunAt(line: string, j: nat, w: string, p: CharClass)
    requires LiteralAt(line, j, w) && AllIn(w, p)
    ensures Span(line, j, p) >= |w|
    ensures j + |w| < |line| && !In(line[j + |w|], p) ==> Span(line, j, p) == |w|
  {
    assert forall t | 0 <= t < |w| :: line[j + t] == w[t];
    SpanAll(line, j, p);
  }

  /** Leftmost-match search of a regular expression without the `g` flag: the
      result of `at` at the first position from `i` where it succeeds. */
  function FirstMatch<T>(s: string, i: nat, at: (string, nat) -> Option<T>): (r: Option<T>)
    ensures r.None? ==> forall k | i <= k <= |s| :: at(s, k).None?
    ensures r.Some? ==> exists k | i <= k <= |s| :: at(s, k) == r && forall k' | i <= k' < k :: at(s, k').None?
    decreases |s| + 1 - i
  {
    if i > |s| then None
    else if at(s, i).Some? then at(s, i)
    else FirstMatch(s, i + 1, at)
  }

  /** A position where the pattern matches guarantees a leftmost match. */
  lemma FirstMatchFinds<T>(s: string, i: nat, at: (string, nat) -> Option<T>)
    requires i <= |s| && at(s, i).Some?
    ensures FirstMatch(s, 0, at).Some?
  {
  }

  /** The match at a position with no match before it is the leftmost match. */
  lemma {:induction false} FirstMatchAt<T>(s: string, i: nat, at: (string, nat) -> Option<T>, p: nat)
    requires i <= p <= |s| && at(s, p).Some?
    requires forall q | i <= q < p :: at(s, q).None?
    ensures FirstMatch(s, i, at) == at(s, p)
    decreases p - i
  {
    if i < p {
      FirstMatchAt(s, i + 1, at, p);
    }
  }

  // ----- split on one character -----

  function IndexOf(s: string, c: char): (i: nat)
    requires c in s
    ensures i < |s| && s[i] == c && c !in s[..i]
  {
    if s[0] == c then 0
    else
      var i := IndexOf(s[1..], c);
      assert s[..i + 1] == [s[0]] + s[1..][..i];
      i + 1
  }

  /** The first `c` is at `j` when `c` is at `j` and nowhere before. */
  lemma IndexOfAt(s: string, c: char, j: nat)
    requires j < |s| && s[j] == c && c !in s[..j]
    ensures IndexOf(s, c) == j
  {
    var i := IndexOf(s, c);
    assert forall t | 0 <= t < j :: s[..j][t] == s[t];
    assert forall t | 0 <= t < i :: s[..i][t] == s[t];
  }

  /** `parts.join(c)` */
  function Join(parts: seq<string>, c: char): string {
    if |parts| == 0 then ""
    else if |parts| == 1 then parts[0]
    else parts[0] + [c] + Join(parts[1..], c)
  }

  /** `s.split(c)` for a one-character separator: the pieces between successive
      occurrences of `c`; the empty string gives one empty piece. */
  function Split(s: string, c: char): (parts: seq<string>)
    ensures |parts| >= 1
    ensures forall k | 0 <= k < |parts| :: c !in parts[k]
    ensures Join(parts, c) == s
    decreases |s|
  {
    if c !in s then [s]
    else
      var i := IndexOf(s, c);
      var rest := Split(s[i + 1..], c);
      assert ([s[..i]] + rest)[1..] == rest;
      [s[..i]] + rest
  }

  /** Split undoes Join when no piece holds the separator, so a piece sequence
      determines its joined text and back. */
  lemma {:induction false} SplitJoin(parts: seq<string>, c: char)
    requires |parts| >= 1
    requires forall k | 0 <= k < |parts| :: c !in parts[k]
    ensures Split(Join(parts, c), c) == parts
    decreases |parts|
  {
    if |parts| > 1 {
      var p0, rest := parts[0], Join(parts[1..], c);
      SplitAfter(p0, rest, c);
      SplitJoin(parts[1..], c);
      assert parts == [p0] + parts[1..];
    }
  }

  /** Text before the first separator is the first piece. */
  lemma SplitAfter(x: string, y: string, c: char)
    requires c !in x
    ensures Split(x + [c] + y, c) == [x] + Split(y, c)
  {
    var s := x + [c] + y;
    assert s[..|x|] == x && s[|x|] == c && s[|x| + 1..] == y;
    IndexOfAt(s, c, |x|);
  }

  /** Joined non-empty pieces start with the first piece's first character and end
      with the last piece's last character. */
  lemma {:induction false} JoinEnds(parts: seq<string>, c: char)
    requires |parts| >= 1 && forall k | 0 <= k < |parts| :: parts[k] != []
    ensures Join(parts, c) != []
    ensures Join(parts, c)[0] == parts[0][0]
    ensures Join(parts, c)[|Join(parts, c)| - 1] == parts[|parts| - 1][|parts[|parts| - 1]| - 1]
    decreases |parts|
  {
    if |parts| > 1 {
      JoinEnds(parts[1..], c);
    }
  }

  lemma {:induction false} JoinAppend(a: seq<string>, b: seq<string>, c: char)
    requires |a| >= 1 && |b| >= 1
    ensures Join(a + b, c) == Join(a, c) + [c] + Join(b, c)
    decreases |a|
  {
    if |a| == 1 {
      assert (a + b)[1..] == b;
    } else {
      assert (a + b)[1..] == a[1..] + b;
      JoinAppend(a[1..], b, c);
    }
  }

  /** Splitting text made of two parts around one separator gives the pieces of
      the first part followed by the pieces of the second. */
  lemma SplitConcat(x: string, y: string, c: char)
    ensures Split(x + [c] + y, c) == Split(x, c) + Split(y, c)
  {
    var p := Split(x, c) + Split(y, c);
    JoinAppend(Split(x, c), Split(y, c), c);
    SplitJoin(p, c);
  }

  // ----- trim -----

  function TrimStart(s: string): (r: string)
    ensures |r| <= |s| && r == s[|s| - |r|..]
    ensures AllSpace(s[..|s| - |r|])
    ensures r == [] || !IsSpace(r[0])
  {
    if s != [] && IsSpace(s[0]) then TrimStart(s[1..]) else s
  }

  function TrimEnd(s: string): (r: string)
    ensures |r| <= |s| && r == s[..|r|]
    ensures AllSpace(s[|r|..])
    ensures r == [] || !IsSpace(r[|r| - 1])
  {
    if s != [] && IsSpace(s[|s| - 1]) then TrimEnd(s[..|s| - 1]) else s
  }

  /** `s.trim()`: `s` is `r` surrounded by whitespace only, and `r` neither starts
      nor ends with whitespace. */
  function Trim(s: string): (r: string)
    ensures exists a: nat :: LiteralAt(s, a, r) && AllSpace(s[..a]) && AllSpace(s[a + |r|..])
    ensures r == [] || (!IsSpace(r[0]) && !IsSpace(r[|r| - 1]))
  {
    var t := TrimStart(s);
    var r := TrimEnd(t);
    var a := |s| - |t|;
    assert s[a..a + |r|] == t[..|r|] == r;
    assert s[a + |r|..] == t[|r|..];
    assert LiteralAt(s, a, r);
    r
  }

  /** Trimming removes only whitespace: every other character of `s` is kept. */
  lemma TrimKeeps(s: string, k: nat)
    requires k < |s| && !IsSpace(s[k])
    ensures s[k] in Trim(s)
  {
    var t := TrimStart(s);
    var a := |s| - |t|;
    assert k >= a;
    assert t[k - a] == s[k];
    var r := TrimEnd(t);
    assert k - a < |r|;
    assert r[k - a] == s[k];
  }

  /** Trimming keeps only characters of `s`. */
  lemma TrimWithin(s: string)
    ensures forall k | 0 <= k < |Trim(s)| :: Trim(s)[k] in s
  {
    var r := Trim(s);
    var a: nat :| LiteralAt(s, a, r) && AllSpace(s[..a]) && AllSpace(s[a + |r|..]);
    LiteralChars(s, a, r);
    forall k | 0 <= k < |r|
      ensures r[k] in s
    {
      assert s[a + k] == r[k];
    }
  }

  /** Text with no whitespace at either end, followed by whitespace only, trims
      to itself. */
  lemma TrimTail(x: string, tail: string)
    requires x != [] && !IsSpace(x[0]) && !IsSpace(x[|x| - 1]) && AllSpace(tail)
    ensures Trim(x + tail) == x
  {
    var s := x + tail;
    assert TrimStart(s) == s;
    assert forall k | |x| <= k < |s| :: s[k] == tail[k - |x|];
    TrimEndIs(s, |x|);
    assert s[..|x|] == x;
  }

  /** Text with no whitespace at either end, between two runs of whitespace, trims
      to itself. */
  lemma TrimPadded(lead: string, x: string, tail: string)
    requires x != [] && !IsSpace(x[0]) && !IsSpace(x[|x| - 1]) && AllSpace(lead) && AllSpace(tail)
    ensures Trim(lead + x + tail) == x
  {
    TrimStartLead(lead, x + tail);
    assert lead + x + tail == lead + (x + tail);
    var s := x + tail;
    assert forall k | |x| <= k < |s| :: s[k] == tail[k - |x|];
    TrimEndIs(s, |x|);
    assert s[..|x|] == x;
  }

  /** Text with no whitespace at either end trims to itself. */
  lemma TrimUnpadded(x: string)
    requires x != [] && !IsSpace(x[0]) && !IsSpace(x[|x| - 1])
    ensures Trim(x) == x
  {
    assert "" + x + "" == x;
    TrimPadded("", x, "");
  }

  /** Leading whitespace is all that TrimStart removes in front of a non-blank. */
  lemma {:induction false} TrimStartLead(lead: string, s: string)
    requires AllSpace(lead) && (s == [] || !IsSpace(s[0]))
    ensures TrimStart(lead + s) == s
    decreases |lead|
  {
    if lead == [] {
      assert lead + s == s;
    } else {
      assert (lead + s)[0] == lead[0];
      assert (lead + s)[1..] == lead[1..] + s;
      TrimStartLead(lead[1..], s);
    }
  }

  lemma {:induction false} TrimEndIs(s: string, b: nat)
    requires 0 < b <= |s| && !IsSpace(s[b - 1]) && forall k | b <= k < |s| :: IsSpace(s[k])
    ensures TrimEnd(s) == s[..b]
  {
    if b < |s| {
      var t := s[..|s| - 1];
      assert forall k | b <= k < |t| :: t[k] == s[k];
      TrimEndIs(t, b);
      assert t[..b] == s[..b];
    } else {
      assert s[..b] == s;
    }
  }

  /** Trimming text whose characters are all in a class leaves such characters. */
  lemma TrimAllIn(s: string, p: CharClass)
    requires AllIn(s, p)
    ensures AllIn(Trim(s), p)
  {
    TrimWithin(s);
    var r := Trim(s);
    forall k | 0 <= k < |r|
      ensures In(r[k], p)
    {
      var j :| 0 <= j < |s| && s[j] == r[k];
    }
  }

  // ----- split on /\s+/ -----

  /** `s.split(/\s+/)`: the pieces between maximal runs of whitespace, with an
      empty first (last) piece when `s` starts (ends) with whitespace. */
  function SplitWs(s: string): (parts: seq<string>)
    ensures |parts| >= 1
    ensures forall k | 0 <= k < |parts| :: NoSpace(parts[k])
    decreases |s|
  {
    var n := Span(s, 0, NonSpace);
    SpanAll(s, 0, NonSpace);
    if n == |s| then [s]
    else
      var w := Span(s, n, Space);
      [s[..n]] + SplitWs(s[n + w..])
  }

  /** On text that starts and ends with a non-space character, every piece of
      SplitWs is a non-empty word. */
  lemma {:induction false} SplitWsWords(s: string)
    requires s != [] && !IsSpace(s[0]) && !IsSpace(s[|s| - 1])
    ensures forall k | 0 <= k < |SplitWs(s)| :: SplitWs(s)[k] != []
    decreases |s|
  {
    var n := Span(s, 0, NonSpace);
    if n < |s| {
      var rest := SplitWsCut(s);
      SplitWsWords(rest);
      var parts := SplitWs(s);
      forall k | 0 <= k < |parts|
        ensures parts[k] != []
      {
        if k > 0 {
          assert parts[k] == SplitWs(rest)[k - 1];
        }
      }
    }
  }

  /** The first word of trimmed text with a blank in it, and the text after the
      blanks that follow it, which is trimmed too. */
  lemma SplitWsCut(s: string) returns (rest: string)
    requires s != [] && !IsSpace(s[0]) && !IsSpace(s[|s| - 1]) && Span(s, 0, NonSpace) < |s|
    ensures rest != [] && !IsSpace(rest[0]) && !IsSpace(rest[|rest| - 1]) && |rest| < |s|
    ensures SplitWs(s) == [s[..Span(s, 0, NonSpace)]] + SplitWs(rest)
    ensures s[..Span(s, 0, NonSpace)] != []
  {
    var n := Span(s, 0, NonSpace);
    var w := Span(s, n, Space);
    SpanAll(s, n, Space);
    assert n + w < |s|;
    rest := s[n + w..];
    assert rest[0] == s[n + w] && rest[|rest| - 1] == s[|s| - 1];
    SplitWsUnfold(s);
  }

  lemma {:induction false} SplitWsUnfold(s: string)
    requires Span(s, 0, NonSpace) < |s|
    ensures var n := Span(s, 0, NonSpace);
      SplitWs(s) == [s[..n]] + SplitWs(s[n + Span(s, n, Space)..])
  {
  }

  /** Text without whitespace is a single piece. */
  lemma SplitWsOne(x: string)
    requires NoSpace(x)
    ensures SplitWs(x) == [x]
  {
    assert AllIn(x, NonSpace);
    assert LiteralAt(x, 0, x);
    RunAt(x, 0, x, NonSpace);
  }

  /** A word, a run of whitespace and text that starts with a non-blank: the word
      is the first piece, and the pieces of the rest follow. */
  lemma SplitWsStep(x: string, w: string, y: string)
    requires NoSpace(x) && w != [] && AllSpace(w) && (y == [] || !IsSpace(y[0]))
    ensures SplitWs(x + w + y) == [x] + SplitWs(y)
  {
    var s := x + w + y;
    assert forall k | 0 <= k < |x| :: s[k] == x[k];
    assert forall k | 0 <= k < |w| :: s[|x| + k] == w[k];
    assert AllIn(x, NonSpace) && AllIn(w, Space);
    assert LiteralAt(s, 0, x) && LiteralAt(s, |x|, w);
    RunAt(s, 0, x, NonSpace);
    assert Span(s, 0, NonSpace) == |x|;
    RunAt(s, |x|, w, Space);
    if y != [] {
      assert s[|x| + |w|] == y[0];
    }
    assert Span(s, |x|, Space) == |w|;
    SplitWsUnfold(s);
    assert s[..|x|] == x && s[|x| + |w|..] == y;
  }

  /** Splitting on whitespace undoes joining non-empty words with single spaces. */
  lemma {:induction false} SplitWsJoin(words: seq<string>)
    requires |words| >= 1 && forall k | 0 <= k < |words| :: words[k] != [] && NoSpace(words[k])
    ensures SplitWs(Join(words, ' ')) == words
    decreases |words|
  {
    if |words| == 1 {
      SplitWsOne(words[0]);
    } else {
      var rest := words[1..];
      var y := Join(rest, ' ');
      assert y[0] == rest[0][0];
      assert Join(words, ' ') == words[0] + " " + y;
      SplitWsStep(words[0], " ", y);
      SplitWsJoin(rest);
      assert words == [words[0]] + rest;
    }
  }

  // ----- line-wise collection -----

  /** The `forEach` + `push` pattern: one element per line that `f` accepts, in
      line order. */
  function Collect<T>(lines: seq<string>, f: string -> Option<T>): (r: seq<T>)
    ensures |r| <= |lines|
  {
    if lines == [] then []
    else
      var last := match f(lines[|lines| - 1]) case Some(x) => [x] case None => [];
      Collect(lines[..|lines| - 1], f) + last
  }

  /** One more line adds its element, if it has one. */
  lemma CollectStep<T>(lines: seq<string>, i: nat, f: string -> Option<T>)
    requires i < |lines|
    ensures Collect(lines[..i + 1], f) ==
      Collect(lines[..i], f) + match f(lines[i]) case Some(x) => [x] case None => []
  {
    assert lines[..i + 1][..i] == lines[..i];
  }

  /** The loop `lines.forEach(line => { const m = f(line); if (m) out.push(m); })`. */
  method CollectLines<T>(lines: seq<string>, f: string -> Option<T>) returns (out: seq<T>)
    ensures out == Collect(lines, f)
  {
    out := [];
    var i := 0;
    while i < |lines|
      invariant 0 <= i <= |lines|
      invariant out == Collect(lines[..i], f)
    {
      CollectStep(lines, i, f);
      var m := f(lines[i]);
      if m.Some? {
        out := out + [m.value];
      }
      i := i + 1;
    }
    assert lines[..i] == lines;
  }

  /** Every element collected satisfies what `f` promises of its results. */
  lemma CollectAll<T>(lines: seq<string>, f: string -> Option<T>, good: T -> bool)
    requires forall l | 0 <= l < |lines| && f(lines[l]).Some? :: good(f(lines[l]).value)
    ensures forall x | x in Collect(lines, f) :: good(x)
  {
    forall x | x in Collect(lines, f)
      ensures good(x)
    {
      CollectMember(lines, f, x);
    }
  }

  /** Collecting is compositional: the output for a text is the output for its
      first lines followed by the output for the rest. */
  lemma {:induction false} CollectAppend<T>(a: seq<string>, b: seq<string>, f: string -> Option<T>)
    ensures Collect(a + b, f) == Collect(a, f) + Collect(b, f)
    decreases |b|
  {
    if b != [] {
      var b' := b[..|b| - 1];
      assert (a + b)[..|a + b| - 1] == a + b';
      assert (a + b)[|a + b| - 1] == b[|b| - 1];
      CollectAppend(a, b', f);
    } else {
      assert a + b == a;
    }
  }

  /** An element is collected exactly when some line yields it. */
  lemma {:induction false} CollectMember<T>(lines: seq<string>, f: string -> Option<T>, x: T)
    ensures x in Collect(lines, f) <==> exists i | 0 <= i < |lines| :: f(lines[i]) == Some(x)
    decreases |lines|
  {
    if lines != [] {
      var init := lines[..|lines| - 1];
      var tail := match f(lines[|lines| - 1]) case Some(y) => [y] case None => [];
      assert Collect(lines, f) == Collect(init, f) + tail;
      assert x in tail <==> f(lines[|lines| - 1]) == Some(x);
      CollectMember(init, f, x);
      if exists i | 0 <= i < |init| :: f(init[i]) == Some(x) {
        var i :| 0 <= i < |init| && f(init[i]) == Some(x);
        assert lines[i] == init[i];
      }
      if exists i | 0 <= i < |lines| :: f(lines[i]) == Some(x) {
        var i :| 0 <= i < |lines| && f(lines[i]) == Some(x);
        if i < |init| {
          assert init[i] == lines[i];
        }
      }
    }
  }

  /** Nothing is collected exactly when no line is accepted. */
  lemma {:induction false} CollectNone<T>(lines: seq<string>, f: string -> Option<T>)
    ensures Collect(lines, f) == [] <==> forall i | 0 <= i < |lines| :: f(lines[i]).None?
    decreases |lines|
  {
    if lines != [] {
      var init := lines[..|lines| - 1];
      CollectNone(init, f);
      if forall i | 0 <= i < |lines| :: f(lines[i]).None? {
        assert forall i | 0 <= i < |init| :: init[i] == lines[i];
      }
    }
  }

  // ----- decimal numerals -----

  /** The value of a decimal digit string, as `Number` gives it for digits only. */
  function DigitsValue(s: string): nat
    requires AllDigits(s)
  {
    if s == [] then 0 else 10 * DigitsValue(s[..|s| - 1]) + (s[|s| - 1] as int - '0' as int)
  }

  /** The decimal numeral of `n` (a template literal `${n}`). */
  function DecimalOf(n: nat): (s: string)
    ensures s != [] && AllDigits(s) && DigitsValue(s) == n
    ensures s[0] != '0' || s == "0"
  {
    if n < 10 then [('0' as int + n) as char]
    else
      var s := DecimalOf(n / 10) + [('0' as int + n % 10) as char];
      assert s[..|s| - 1] == DecimalOf(n / 10);
      s
  }
}

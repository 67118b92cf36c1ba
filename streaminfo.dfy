/** Program listing: `hdhomerun_config <id> get /tuner<N>/streaminfo` prints one line
    per program of the tuned multiplex, such as
    "program 101:  virtual 3.1  (CALLSIGN)  type=Video  encrypted=1". The gateway keeps
    one entry per line that names a program number and, later on the same line, a
    virtual channel. */
module StreamInfo {
  import opened Text
  import opened Tool

  datatype ProgramEntry = ProgramEntry(
    programNum: nat,
    virtualChannel: string,
    callsign: string,
    encrypted: bool,
    status: string)

  /** One match of the program pattern: the `(\d+)` group and where `virtual\s+`
      starts; the other two groups follow from that position (ChannelGroup, NameGroup). */
  datatype ProgramMatch = ProgramMatch(number: string, virtualAt: nat)

  // ----- /program\s+(\d+).*?virtual\s+([0-9.]+)?\s*\(?([A-Za-z0-9 _.-]+)?\)?/i -----

  /** `virtual\s+` (any letter case) starts at `k`. */
  predicate VirtualAt(line: string, k: nat) {
    LiteralAtCi(line, k, "virtual") && k + 7 < |line| && IsSpace(line[k + 7])
  }

  /** No line terminator in `line[i..j]`: text that `.*` can cover. */
  predicate OneLine(line: string, i: nat, j: nat)
    requires i <= j <= |line|
  {
    forall t | i <= t < j :: !IsLineTerminator(line[t])
  }

  /** `.*?virtual\s+` from position `i`: the lazy `.*?` tries ever longer stretches of
      the line and cannot step over a line terminator, so the match goes on at the
      first `virtual\s+` reachable from `i`. */
  function VirtualFrom(line: string, i: nat): (r: Option<nat>)
    requires i <= |line|
    ensures r.Some? ==> i <= r.value && r.value + 7 < |line|
    decreases |line| - i
  {
    if VirtualAt(line, i) then Some(i)
    else if i < |line| && !IsLineTerminator(line[i]) then VirtualFrom(line, i + 1)
    else None
  }

  /** VirtualFrom finds the first `virtual\s+` that the line reaches from `i` without
      crossing a line terminator, and finds nothing only when there is none. */
  lemma {:induction false} VirtualFromSound(line: string, i: nat)
    requires i <= |line|
    ensures VirtualFrom(line, i).Some? ==>
      var k := VirtualFrom(line, i).value;
      && VirtualAt(line, k) && OneLine(line, i, k)
      && forall q | i <= q < k :: !VirtualAt(line, q)
    ensures VirtualFrom(line, i).None? ==>
      forall k | i <= k <= |line| && OneLine(line, i, k) :: !VirtualAt(line, k)
    decreases |line| - i
  {
    if !VirtualAt(line, i) && i < |line| && !IsLineTerminator(line[i]) {
      VirtualFromSound(line, i + 1);
    }
  }

  /** The part of the pattern after `virtual\s+` at `v`. Every piece is optional
      and greedy, so the first attempt succeeds: the longest run of `[0-9.]`
      (the channel group), then whitespace, an optional `(`, and the longest run
      of name characters (the name group). The channel group starts after the
      whitespace run that follows `virtual`. */
  function ChannelStart(line: string, v: nat): (b: nat)
    requires v + 7 <= |line|
    ensures v + 7 <= b <= |line|
  {
    SkipSpace(line, v + 7)
  }

  /** Where the channel group ends: after the longest run of `[0-9.]`. */
  function ChannelEnd(line: string, v: nat): (c: nat)
    requires v + 7 <= |line|
    ensures ChannelStart(line, v) <= c <= |line|
  {
    var b := ChannelStart(line, v);
    b + Span(line, b, DigitOrDot)
  }

  /** `([0-9.]+)?`, or the empty text when the group did not participate. */
  function ChannelGroup(line: string, v: nat): string
    requires v + 7 <= |line|
  {
    line[ChannelStart(line, v)..ChannelEnd(line, v)]
  }

  /** Where the name group starts after a channel group ending at `c`: past the
      whitespace run and an optional `(`. */
  function NameStart(line: string, c: nat): (f: nat)
    requires c <= |line|
    ensures c <= f <= |line|
  {
    var e := SkipSpace(line, c);
    if e < |line| && line[e] == '(' then e + 1 else e
  }

  /** `([A-Za-z0-9 _.-]+)?`, or the empty text when the group did not participate. */
  function NameGroup(line: string, v: nat): string
    requires v + 7 <= |line|
  {
    var f := NameStart(line, ChannelEnd(line, v));
    line[f..f + Span(line, f, NameChar)]
  }

  /** The channel group holds channel characters and the name group name characters. */
  lemma GroupsShape(line: string, v: nat)
    requires v + 7 <= |line|
    ensures AllIn(ChannelGroup(line, v), DigitOrDot) && AllIn(NameGroup(line, v), NameChar)
  {
    SpanAll(line, ChannelStart(line, v), DigitOrDot);
    SpanAll(line, NameStart(line, ChannelEnd(line, v)), NameChar);
  }

  /** The program pattern tried at position `p`. `\s+` and `\d+` are maximal (no digit
      is whitespace), and giving back digits cannot help the lazy `.*?`, because no
      digit starts `virtual`. */
  function ProgramAt(line: string, p: nat): (r: Option<ProgramMatch>)
    ensures r.Some? ==> && r.value.number != [] && AllDigits(r.value.number)
                        && p < r.value.virtualAt && r.value.virtualAt + 7 < |line|
  {
    if !LiteralAtCi(line, p, "program") then None
    else
      var d := SkipSpace(line, p + 7);
      if d == p + 7 then None else NumberFrom(line, d)
  }

  /** `(\d+).*?virtual\s+` from `d`: the longest digit run, then the first
      `virtual\s+` the line reaches after it. */
  function NumberFrom(line: string, d: nat): (r: Option<ProgramMatch>)
    requires d <= |line|
    ensures r.Some? ==> && r.value.number != [] && AllDigits(r.value.number)
                        && d < r.value.virtualAt && r.value.virtualAt + 7 < |line|
  {
    var n := Span(line, d, Digit);
    if n == 0 then None
    else
      match VirtualFrom(line, d + n)
      case None => None
      case Some(v) =>
        SpanAll(line, d, Digit);
        Some(ProgramMatch(line[d..d + n], v))
  }

  /** A match at `p` has `program` at `p` and `virtual\s+` where it says. */
  lemma ProgramAtSound(line: string, p: nat)
    ensures ProgramAt(line, p).Some? ==>
      LiteralAtCi(line, p, "program") && VirtualAt(line, ProgramAt(line, p).value.virtualAt)
  {
    if ProgramAt(line, p).Some? {
      var d := SkipSpace(line, p + 7);
      VirtualFromSound(line, d + Span(line, d, Digit));
    }
  }

  /** `line.match(...)`: the leftmost match in the line, if any. */
  function MatchProgram(line: string): Option<ProgramMatch> {
    FirstMatch(line, 0, ProgramAt)
  }

  /** The line's match continues at a `virtual\s+` of the line. */
  lemma MatchProgramSound(line: string)
    ensures MatchProgram(line).Some? ==> VirtualAt(line, MatchProgram(line).value.virtualAt)
  {
    if MatchProgram(line).Some? {
      var p :| 0 <= p <= |line| && ProgramAt(line, p) == MatchProgram(line);
      ProgramAtSound(line, p);
    }
  }

  // ----- /encrypted\s*=\s*1/i and /status\s*=\s*([A-Za-z0-9_-]+)/i -----

  /** `encrypted\s*=\s*1` (any letter case) starts at `p`. */
  predicate EncryptedAt(line: string, p: nat) {
    LiteralAtCi(line, p, "encrypted") && AssignsOne(line, SkipSpace(line, p + 9))
  }

  /** `=\s*1` at `q`. */
  predicate AssignsOne(line: string, q: nat)
    requires q <= |line|
  {
    q < |line| && line[q] == '=' && var r := SkipSpace(line, q + 1); r < |line| && line[r] == '1'
  }

  /** `.test(line)` */
  predicate Encrypted(line: string) {
    exists p | 0 <= p <= |line| :: EncryptedAt(line, p)
  }

  /** The status pattern tried at `p`: the value is the longest run of status
      characters after `status`, optional whitespace, `=` and optional whitespace. */
  function StatusAt(line: string, p: nat): (r: Option<string>)
    ensures r.Some? ==> r.value != [] && AllIn(r.value, StatusChar)
  {
    if !LiteralAtCi(line, p, "status") then None
    else StatusAfterKey(line, SkipSpace(line, p + 6))
  }

  /** The rest of the status pattern from `q`, where `=` is expected. */
  function StatusAfterKey(line: string, q: nat): (r: Option<string>)
    requires q <= |line|
    ensures r.Some? ==> r.value != [] && AllIn(r.value, StatusChar)
  {
    if q == |line| || line[q] != '=' then None
    else StatusValue(line, SkipSpace(line, q + 1))
  }

  /** `([A-Za-z0-9_-]+)` at `r`. */
  function StatusValue(line: string, r: nat): (v: Option<string>)
    requires r <= |line|
    ensures v.Some? ==> v.value != [] && AllIn(v.value, StatusChar)
  {
    var n := Span(line, r, StatusChar);
    if n == 0 then None
    else
      SpanAll(line, r, StatusChar);
      Some(line[r..r + n])
  }

  /** `(/status.../i.exec(line) || [])[1] || ''` */
  function StatusHint(line: string): string {
    match FirstMatch(line, 0, StatusAt)
    case Some(s) => s
    case None => ""
  }

  // ----- entries -----

  /** The entry pushed for a matching line. `Number` of a digit run is its decimal
      value; an absent virtual channel or call sign group gives the empty text. */
  function ProgramLine(line: string): Option<ProgramEntry> {
    match MatchProgram(line)
    case None => None
    case Some(m) =>
      var v := m.virtualAt;
      Some(ProgramEntry(DigitsValue(m.number), ChannelGroup(line, v), Trim(NameGroup(line, v)),
                        Encrypted(line), StatusHint(line)))
  }

  /** What every entry looks like: a virtual channel of digits and dots, a call sign
      of name characters with no space at either end, and a status of status
      characters. */
  predicate Shaped(e: ProgramEntry) {
    && AllIn(e.virtualChannel, DigitOrDot)
    && AllIn(e.callsign, NameChar)
    && (e.callsign == [] || (e.callsign[0] != ' ' && e.callsign[|e.callsign| - 1] != ' '))
    && AllIn(e.status, StatusChar)
  }

  /** A status hint is empty or a run of status characters. */
  lemma StatusHintShape(line: string)
    ensures AllIn(StatusHint(line), StatusChar)
  {
  }

  /** Every entry has that shape. */
  lemma ProgramLineShaped(line: string)
    requires ProgramLine(line).Some?
    ensures Shaped(ProgramLine(line).value)
  {
    var m := MatchProgram(line).value;
    var v := m.virtualAt;
    ProgramLineOf(line, m);
    GroupsShape(line, v);
    var e := ProgramLine(line).value;
    assert e.virtualChannel == ChannelGroup(line, v) && e.callsign == Trim(NameGroup(line, v));
    assert e.status == StatusHint(line);
    TrimWithin(NameGroup(line, v));
    assert AllIn(e.callsign, NameChar);
    StatusHintShape(line);
  }

  /** `output.split('\n')`, one entry per matching line, in line order. */
  function Listed(output: string): seq<ProgramEntry> {
    Collect(Split(output, '\n'), ProgramLine)
  }

  /** parseStreamInfo: the forEach over the lines, pushing an entry per match. */
  method ParseStreamInfo(output: string) returns (programs: seq<ProgramEntry>)
    ensures programs == Listed(output)
    ensures forall e | e in programs :: Shaped(e)
  {
    programs := CollectLines(Split(output, '\n'), ProgramLine);
    ListedShaped(output);
  }

  /** Every listed entry has the shape of an entry. */
  lemma ListedShaped(output: string)
    ensures forall e | e in Listed(output) :: Shaped(e)
  {
    var lines := Split(output, '\n');
    forall l | 0 <= l < |lines| && ProgramLine(lines[l]).Some?
      ensures Shaped(ProgramLine(lines[l]).value)
    {
      ProgramLineShaped(lines[l]);
    }
    CollectAll(lines, ProgramLine, Shaped);
  }

  // ----- what the listing says -----

  /** Lines are handled independently and in order. */
  lemma ListedInLineOrder(a: string, b: string)
    ensures Listed(a + "\n" + b) == Listed(a) + Listed(b)
  {
    SplitConcat(a, b, '\n');
    CollectAppend(Split(a, '\n'), Split(b, '\n'), ProgramLine);
  }

  /** A single line contributes its entry, if it has one, and nothing else. */
  lemma ListedLine(line: string)
    requires '\n' !in line
    ensures Listed(line) == match ProgramLine(line) case Some(e) => [e] case None => []
  {
    assert Split(line, '\n') == [line];
    assert [line][..0] == [];
  }

  /** A line yields an entry only if it says `program` and, further on, `virtual`
      followed by whitespace. */
  lemma ProgramLineNeedsWords(line: string)
    requires ProgramLine(line).Some?
    ensures exists p: nat, k: nat :: p < k && LiteralAtCi(line, p, "program") && VirtualAt(line, k)
  {
    var p :| 0 <= p <= |line| && ProgramAt(line, p) == MatchProgram(line);
    ProgramAtSound(line, p);
    assert VirtualAt(line, MatchProgram(line).value.virtualAt);
  }

  /** `virtual ` written at `k`, after a space at `k - 1` that follows the digits. */
  lemma VirtualWritten(line: string, e: nat)
    requires LiteralAt(line, e, " virtual ")
    ensures VirtualFrom(line, e) == Some(e + 1)
  {
    LiteralChars(line, e, " virtual ");
    assert line[e + 1..e + 8] == " virtual "[1..8] == "virtual";
    LiteralMatchesCi(line, e + 1, "virtual");
    assert LowerAscii(line[e]) != "virtual"[0];
    assert VirtualAt(line, e + 1);
  }

  /** A non-empty run of channel characters followed by a space is written at `b`. */
  predicate ChannelText(line: string, b: nat, v: string) {
    v != [] && AllIn(v, DigitOrDot) && LiteralAt(line, b, v) && LiteralAt(line, b + |v|, " ")
  }

  /** The channel group after `virtual` and one space at `k`, when a channel and a
      space are written there. */
  lemma ChannelWritten(line: string, k: nat, b: nat, v: string)
    requires k + 7 < |line| && IsSpace(line[k + 7]) && b == k + 8
    requires ChannelText(line, b, v)
    ensures ChannelGroup(line, k) == v && ChannelEnd(line, k) == b + |v|
  {
    LiteralChars(line, b, v);
    LiteralChars(line, b + |v|, " ");
    assert !IsSpace(line[b]);
    assert Span(line, b, Space) == 0;
    assert ChannelStart(line, k) == b;
    RunAt(line, b, v, DigitOrDot);
    assert Span(line, b, DigitOrDot) == |v|;
  }

  /** The number part of the pattern at `p` on `program <digits> `. */
  lemma NumberWritten(line: string, p: nat, n: string)
    requires n != [] && AllDigits(n)
    requires LiteralAt(line, p, "program ") && LiteralAt(line, p + 8, n)
    requires p + 8 + |n| < |line| && !IsDigit(line[p + 8 + |n|])
    ensures LiteralAtCi(line, p, "program")
    ensures SkipSpace(line, p + 7) == p + 8
    ensures Span(line, p + 8, Digit) == |n|
  {
    LiteralChars(line, p, "program ");
    LiteralChars(line, p + 8, n);
    assert line[p..p + 7] == "program "[..7] == "program";
    LiteralMatchesCi(line, p, "program");
    assert IsDigit(n[0]);
    SkipNone(line, p + 8);
    RunAt(line, p + 8, n, Digit);
  }

  /** The match at `p` once its positions are known. */
  lemma NumberFromWritten(line: string, d: nat, n: string, k: nat)
    requires d + |n| <= |line| && n != []
    requires Span(line, d, Digit) == |n| && LiteralAt(line, d, n)
    requires VirtualFrom(line, d + |n|) == Some(k)
    ensures NumberFrom(line, d) == Some(ProgramMatch(n, k))
  {
    assert line[d..d + Span(line, d, Digit)] == n;
  }

  /** The program pattern at `p` on `program <digits> virtual `. */
  lemma ProgramWritten(line: string, p: nat, n: string)
    requires n != [] && AllDigits(n)
    requires LiteralAt(line, p, "program ") && LiteralAt(line, p + 8, n)
    requires LiteralAt(line, p + 8 + |n|, " virtual ")
    ensures ProgramAt(line, p) == Some(ProgramMatch(n, p + 9 + |n|))
  {
    var e := p + 8 + |n|;
    assert line[e] == ' ' by {
      LiteralChars(line, e, " virtual ");
    }
    NumberWritten(line, p, n);
    assert VirtualFrom(line, e) == Some(e + 1) by {
      VirtualWritten(line, e);
    }
    NumberFromWritten(line, p + 8, n, p + 9 + |n|);
  }

  /** The entry of a line whose match is known. */
  lemma ProgramLineOf(line: string, m: ProgramMatch)
    requires MatchProgram(line) == Some(m)
    ensures m.virtualAt + 7 < |line| && AllDigits(m.number)
    ensures ProgramLine(line).Some?
    ensures ProgramLine(line).value.programNum == DigitsValue(m.number)
    ensures ProgramLine(line).value.virtualChannel == ChannelGroup(line, m.virtualAt)
    ensures ProgramLine(line).value.callsign == Trim(NameGroup(line, m.virtualAt))
  {
  }

  /** A line with `program <digits> virtual ` in it yields an entry. */
  lemma ProgramLineFound(line: string, p: nat, n: string)
    requires n != [] && AllDigits(n)
    requires LiteralAt(line, p, "program ") && LiteralAt(line, p + 8, n)
    requires LiteralAt(line, p + 8 + |n|, " virtual ")
    ensures ProgramLine(line).Some?
  {
    ProgramWritten(line, p, n);
    FirstMatchFinds(line, p, ProgramAt);
  }

  /** When that is the first `program` of the line, its match is the line's. */
  lemma ProgramLineFirst(line: string, p: nat, n: string)
    requires n != [] && AllDigits(n)
    requires LiteralAt(line, p, "program ") && LiteralAt(line, p + 8, n)
    requires LiteralAt(line, p + 8 + |n|, " virtual ")
    requires forall q | 0 <= q < p :: !LiteralAtCi(line, q, "program")
    ensures MatchProgram(line) == Some(ProgramMatch(n, p + 9 + |n|))
  {
    ProgramWritten(line, p, n);
    FirstProgram(line, p);
  }

  /** The entry of a line whose match is known and whose virtual channel is followed
      by a space. */
  lemma ProgramLineChannel(line: string, m: ProgramMatch, b: nat, v: string)
    requires MatchProgram(line) == Some(m) && b == m.virtualAt + 8
    requires ChannelText(line, b, v)
    ensures ProgramLine(line).Some? && ProgramLine(line).value.virtualChannel == v
  {
    ProgramLineOf(line, m);
    MatchProgramSound(line);
    ChannelWritten(line, m.virtualAt, b, v);
  }

  /** The name group after a channel group ending at `c`, when " (", a name and ")"
      are written there. */
  lemma NameWritten(line: string, c: nat, name: string)
    requires name != [] && AllIn(name, NameChar)
    requires LiteralAt(line, c, " (") && LiteralAt(line, c + 2, name) && LiteralAt(line, c + 2 + |name|, ")")
    ensures NameStart(line, c) == c + 2 && Span(line, c + 2, NameChar) == |name|
  {
    LiteralChars(line, c, " (");
    LiteralChars(line, c + 2 + |name|, ")");
    assert " (" == " " + "(";
    LiteralAtConcat(line, c, " ", "(");
    RunAt(line, c, " ", Space);
    assert SkipSpace(line, c) == c + 1;
    RunAt(line, c + 2, name, NameChar);
  }

  /** The channel and name groups after `virtual` and one space at `k`, read from a
      channel, a space and a parenthesised name. */
  lemma GroupsWritten(line: string, k: nat, b: nat, v: string, name: string)
    requires k + 7 < |line| && IsSpace(line[k + 7]) && b == k + 8
    requires ChannelText(line, b, v)
    requires name != [] && AllIn(name, NameChar)
    requires LiteralAt(line, b + |v|, " (") && LiteralAt(line, b + |v| + 2, name)
    requires LiteralAt(line, b + |v| + 2 + |name|, ")")
    ensures ChannelGroup(line, k) == v && NameGroup(line, k) == name
  {
    assert ChannelGroup(line, k) == v && ChannelEnd(line, k) == b + |v| by {
      ChannelWritten(line, k, b, v);
    }
    NameAfterChannel(line, k, b + |v|, name);
  }

  /** The name group after a channel group ending at `c`, read from " (", a name
      and ")". */
  lemma NameAfterChannel(line: string, k: nat, c: nat, name: string)
    requires k + 7 <= |line| && ChannelEnd(line, k) == c
    requires name != [] && AllIn(name, NameChar)
    requires LiteralAt(line, c, " (") && LiteralAt(line, c + 2, name) && LiteralAt(line, c + 2 + |name|, ")")
    ensures NameGroup(line, k) == name
  {
    NameWritten(line, c, name);
    NameGroupAt(line, k, c, name);
  }

  /** The name group once the channel group's end and the name run are known. */
  lemma NameGroupAt(line: string, k: nat, c: nat, name: string)
    requires k + 7 <= |line| && ChannelEnd(line, k) == c && c + 2 <= |line|
    requires NameStart(line, c) == c + 2 && Span(line, c + 2, NameChar) == |name| && LiteralAt(line, c + 2, name)
    ensures NameGroup(line, k) == name
  {
  }

  /** A line reading `... virtual <channel> (<name>) ...` lists that channel and
      that name as the call sign, when the name has no space at either end: the
      line "program 3 virtual 5.1 (KABC)" lists channel 5.1 with call sign KABC. */
  lemma ProgramLineCallsign(line: string, m: ProgramMatch, b: nat, v: string, name: string)
    requires MatchProgram(line) == Some(m) && b == m.virtualAt + 8
    requires ChannelText(line, b, v)
    requires name != [] && AllIn(name, NameChar) && !IsSpace(name[0]) && !IsSpace(name[|name| - 1])
    requires LiteralAt(line, b + |v|, " (") && LiteralAt(line, b + |v| + 2, name)
    requires LiteralAt(line, b + |v| + 2 + |name|, ")")
    ensures ProgramLine(line).Some? && ProgramLine(line).value.programNum == DigitsValue(m.number)
    ensures ProgramLine(line).value.virtualChannel == v && ProgramLine(line).value.callsign == name
  {
    ProgramLineOf(line, m);
    MatchProgramSound(line);
    CallsignGroups(line, m.virtualAt, b, v, name);
  }

  /** The groups after `virtual\s+` at `k` read back the written channel and, once
      trimmed, the written name. */
  lemma CallsignGroups(line: string, k: nat, b: nat, v: string, name: string)
    requires VirtualAt(line, k) && b == k + 8
    requires ChannelText(line, b, v)
    requires name != [] && AllIn(name, NameChar) && !IsSpace(name[0]) && !IsSpace(name[|name| - 1])
    requires LiteralAt(line, b + |v|, " (") && LiteralAt(line, b + |v| + 2, name)
    requires LiteralAt(line, b + |v| + 2 + |name|, ")")
    ensures ChannelGroup(line, k) == v && Trim(NameGroup(line, k)) == name
  {
    GroupsWritten(line, k, b, v, name);
    TrimUnpadded(name);
  }

  /** The match at the first `program` of a line is the line's match. */
  lemma FirstProgram(line: string, p: nat)
    requires p <= |line| && ProgramAt(line, p).Some?
    requires forall q | 0 <= q < p :: !LiteralAtCi(line, q, "program")
    ensures MatchProgram(line) == ProgramAt(line, p)
  {
    forall q | 0 <= q < p
      ensures ProgramAt(line, q).None?
    {
    }
    FirstMatchAt(line, 0, ProgramAt, p);
  }

  /** `encrypted=1` anywhere in a line, in any letter case, marks the entry encrypted. */
  lemma EncryptedMark(line: string, p: nat)
    requires LiteralAtCi(line, p, "encrypted=1")
    ensures Encrypted(line)
  {
    assert forall k | 0 <= k < 9 :: "encrypted"[k] == "encrypted=1"[k];
    assert LowerAscii(line[p + 9]) == "encrypted=1"[9] == '=';
    assert LowerAscii(line[p + 10]) == "encrypted=1"[10] == '1';
    SkipNone(line, p + 9);
    SkipNone(line, p + 10);
    assert AssignsOne(line, p + 9);
    assert EncryptedAt(line, p);
  }

  /** A line without `=` is never encrypted and has no status hint. */
  lemma NoAssignmentNoHints(line: string)
    requires '=' !in line
    ensures !Encrypted(line) && StatusHint(line) == ""
  {
    forall p | 0 <= p <= |line|
      ensures !EncryptedAt(line, p) && StatusAt(line, p).None?
    {
    }
  }

  /** The first `status=<word>` of a line gives its status hint. */
  lemma StatusFound(line: string, p: nat, w: string)
    requires p + 7 + |w| <= |line| && w != [] && AllIn(w, StatusChar)
    requires LiteralAt(line, p, "status=" + w)
    requires p + 7 + |w| == |line| || !IsStatusChar(line[p + 7 + |w|])
    requires forall q | 0 <= q < p :: !LiteralAtCi(line, q, "status")
    ensures StatusHint(line) == w
  {
    LiteralAtConcat(line, p, "status=", w);
    StatusWritten(line, p, w);
    FirstMatchAt(line, 0, StatusAt, p);
  }

  /** The status pattern at `p` on `status=<word>` followed by a non-status character
      or the end of the line. */
  lemma StatusWritten(line: string, p: nat, w: string)
    requires p + 7 + |w| <= |line| && w != [] && AllIn(w, StatusChar)
    requires LiteralAt(line, p, "status=") && LiteralAt(line, p + 7, w)
    requires p + 7 + |w| == |line| || !IsStatusChar(line[p + 7 + |w|])
    ensures StatusAt(line, p) == Some(w)
  {
    var r := p + 7;
    LiteralChars(line, p, "status=");
    assert line[p..p + 6] == "status="[..6] == "status";
    LiteralMatchesCi(line, p, "status");
    SkipNone(line, p + 6);
    LiteralChars(line, r, w);
    assert In(w[0], StatusChar);
    StatusCharNotSpace(line[r]);
    SkipNone(line, r);
    RunAt(line, r, w, StatusChar);
    assert StatusValue(line, r) == Some(w);
    assert StatusAfterKey(line, p + 6) == Some(w);
  }

  lemma StatusCharNotSpace(c: char)
    requires IsStatusChar(c)
    ensures !IsSpace(c)
  {
  }


  /** The status hint is empty exactly when the status pattern matches nowhere. */
  lemma StatusHintEmpty(line: string)
    ensures StatusHint(line) == "" <==> forall p | 0 <= p <= |line| :: StatusAt(line, p).None?
  {
    var r := FirstMatch(line, 0, StatusAt);
    if r.Some? {
      var k :| 0 <= k <= |line| && StatusAt(line, k) == r;
      assert StatusHint(line) == r.value != [];
    }
  }

  /** GET /api/devices/<id>/tuner/<tuner>/programs: one streaminfo read; its entries,
      or the empty list when the read fails. */
  method ListPrograms(exec: Oracle, id: string, tuner: string) returns (reply: Reply<seq<ProgramEntry>>)
    ensures reply.calls == [GetCall(id, TunerPath(tuner, "streaminfo"))]
    ensures reply.result == Ok(match exec(GetCall(id, TunerPath(tuner, "streaminfo")))
      case Done(out) => Listed(out)
      case Failed(_) => [])
  {
    var call := GetCall(id, TunerPath(tuner, "streaminfo"));
    match exec(call)
    case Done(out) =>
      var programs := ParseStreamInfo(out);
      reply := Reply([call], Ok(programs));
    case Failed(_) =>
      reply := Reply([call], Ok([]));
  }
}

# hdhomerun_config gateway — a Dafny model

The gateway is a small Node.js server that drives the `hdhomerun_config` command-line
utility on behalf of a web front end. It discovers HDHomeRun tuners, reads a
device's model and tuner count, sets a tuner's channel map, tunes a channel (with an
optional program), clears a tuner, lists the programs of the tuned multiplex, and
pushes the status of one tuner to each connected client every second.

The repository holds two near-identical copies of the server: `backend/server.js`
and an older variant in `frontend/src/components/SignalMeter.js`. They share the
parsers, the tuner probe, the channel split, the clear and programs handlers, and
the monitor registry. The shared code is modelled once; where the copies differ
(the model name of `/info`, and `parseSysModel`, which only the older copy has),
each copy has its own member.

The utility is an oracle: `Tool.Oracle` maps a call (an argument vector and a
timeout in milliseconds) to either its standard output or a failure. Each request
handler is modelled as a `Reply`: the calls it issues, in order, and its answer
(`Ok`, or `Err` with a validation or tool failure).

Modules:

- `Text` — the JavaScript string built-ins the parsers use, as total functions:
  `split` on one character and on `/\s+/`, `trim`, leftmost regular-expression
  search, greedy character runs, ASCII case folding for `/i`, the
  `forEach`/`push` loop over lines, and decimal numerals.
- `Tool` — the oracle, the calls, results and replies.
- `Discover` — `parseDiscover` and `GET /api/devices`.
- `Status` — `parseStatus`: tokens, the key/value object, number normalisation
  and defaults.
- `StreamInfo` — `parseStreamInfo` and the programs handler.
- `Info` — `parseSysModel`, the model-name normalisation of both `/info`
  handlers, and `countTuners`.
- `Tuning` — the channel split, and the channel-map, channel and clear handlers.
- `Monitor` — the monitoring tick and the `monitorState` registry, as a class
  with start, stop and disconnect.

Regular expressions are modelled as JavaScript's backtracking matcher resolves
them on these patterns. A greedy run is the maximal run of its character class.
The lazy `.*?` in the program pattern stops at the first `virtual` followed by
whitespace that can be reached without crossing a line terminator. In
`parseSysModel` the `\s*` after the colon also crosses line terminators, so `(.+)`
starts at the first non-blank character after the colon. Only when the whitespace
after the colon runs to the end of the text does `(.+)` back off into it, to the
last whitespace character that is not a line terminator.

## Model

| member | source | states |
|---|---|---|
| Text.Split | backend/server.js:35 | `split` on one character gives at least one piece; no piece contains the separator; joining the pieces with it gives the text back |
| Text.SplitJoin | backend/server.js:141 | splitting pieces joined by a separator they do not contain returns exactly those pieces |
| Text.SplitConcat | backend/server.js:35 | the pieces of `x + sep + y` are the pieces of `x` followed by those of `y` |
| Text.SplitAfter | backend/server.js:141 | text before the first separator is the first piece, and the rest splits on its own |
| Text.Trim | backend/server.js:57 | `trim` returns the text found inside its input with only whitespace around it, and it neither starts nor ends with whitespace |
| Text.TrimKeeps | backend/server.js:109 | trimming drops only whitespace: every other character of the input is kept |
| Text.TrimWithin | backend/server.js:80 | every character of the trimmed text comes from the input |
| Text.TrimTail | backend/server.js:109 | text with no whitespace at either end, followed by whitespace only, trims to itself |
| Text.TrimPadded | backend/server.js:57 | text with no whitespace at either end, with only whitespace around it, trims to itself |
| Text.TrimUnpadded | backend/server.js:80 | text with no whitespace at either end trims to itself |
| Text.TrimAllIn | frontend/src/components/SignalMeter.js:104 | trimming text of one character class leaves text of that class |
| Text.SplitWs | backend/server.js:57 | `split(/\s+/)` gives at least one piece, and no piece contains whitespace |
| Text.SplitWsWords | backend/server.js:57 | on trimmed non-empty text every piece is a non-empty word |
| Text.SplitWsOne | backend/server.js:57 | text without whitespace is a single piece |
| Text.SplitWsStep | backend/server.js:57 | a word, a run of whitespace and text starting with a non-blank split into the word followed by the pieces of the rest |
| Text.SplitWsJoin | backend/server.js:57 | splitting on `/\s+/` undoes joining non-empty words with single spaces |
| Text.Span | backend/server.js:36 | a greedy run from a position stays inside the text and stops at the end or at a character outside its class |
| Text.SpanAll | backend/server.js:36 | every character of a greedy run belongs to its class |
| Text.RunAt | backend/server.js:36 | a run written at a position is covered by the greedy run there, and is all of it when the next character is outside the class |
| Text.FirstMatch | backend/server.js:36 | a regular-expression search without the `g` flag yields the match at the first position where the pattern matches, and nothing only when it matches nowhere |
| Text.FirstMatchFinds | backend/server.js:36 | a position where the pattern matches guarantees a match |
| Text.FirstMatchAt | backend/server.js:36 | the match at a position with no match before it is the search's result |
| Text.LiteralAtConcat | backend/server.js:36 | a literal `x + y` occurs at a position exactly when `x` occurs there and `y` right after it |
| Text.LiteralMatchesCi | backend/server.js:73 | a lower-case literal written in the text also matches under `/i` |
| Text.IndexOf | backend/server.js:59 | the first occurrence of a character: it is there, and not before |
| Text.IndexOfAt | backend/server.js:59 | a character present at a position and absent before it has its first occurrence there |
| Text.CollectLines | backend/server.js:35-38 | the `forEach`/`push` loop over the lines produces the specification `Collect`: one element per accepted line, in line order |
| Text.CollectAppend | backend/server.js:35-38 | the output for a block of lines is the output of its first lines followed by that of the rest |
| Text.CollectMember | backend/server.js:35-38 | an element is in the output exactly when some line yields it |
| Text.CollectNone | backend/server.js:35-38 | the output is empty exactly when no line is accepted |
| Text.CollectAll | backend/server.js:35-38 | a property every accepted line's element has holds for the whole output |
| Text.DecimalOf | backend/server.js:46 | the template literal `${i}` of an index is a non-empty digit string whose value is `i`, with no leading zero |
| Discover.DeviceAtSound | backend/server.js:36 | a match is a device with a non-empty hexadecimal id and a non-empty address of digits and dots, announced at the position where it was found |
| Discover.AnnouncementPieces | backend/server.js:36 | an announcement is written exactly when its prefix, id, " found at " and address are written one after the other |
| Discover.MatchDevice | backend/server.js:36 | `line.match(...)` is the leftmost match, and any match is a well-formed device whose announcement appears in the line |
| Discover.LineWithDeviceMatches | backend/server.js:36 | every line containing an announcement matches; the match at the announcement's position has the announced id and an address that starts with the announced one |
| Discover.LineFirstDevice | backend/server.js:36 | when the announcement holds the line's first "hdhomerun device ", the line's match is the device read there: the announced id and an address that starts with the announced one |
| Discover.ParseDiscover | backend/server.js:33-40 | the loop yields `Discovered`: one device per matching line, in line order, each well formed |
| Discover.Discovered | backend/server.js:33-40 | every discovered device is well formed |
| Discover.DiscoveredInLineOrder | backend/server.js:35 | the devices of two blocks of lines are those of the first block followed by those of the second |
| Discover.DiscoveredLine | backend/server.js:36-37 | a single line contributes its match and nothing else |
| Discover.DiscoveredNothing | backend/server.js:33-40 | empty output, or output without any announcement, yields no device |
| Discover.DiscoverDevices | backend/server.js:94-102 | one `discover` call; its output parsed, or its failure reported |
| Status.StripNonNumeric | backend/server.js:63 | removing every character but digits, `.` and `-` keeps those characters in order and leaves text made only of them unchanged |
| Status.StripNonNumericConcat | backend/server.js:63 | the replacement works character by character: stripping `s + t` gives the stripped `s` followed by the stripped `t` |
| Status.StripNonNumericChar | backend/server.js:63 | a single character is kept exactly when it is a digit, `.` or `-` |
| Status.UnsignedDecimal | backend/server.js:63 | an unsigned decimal literal never reads as a negative number |
| Status.NumberOr0 | backend/server.js:63 | a value without a minus sign never reads as negative |
| Status.NumberOfDigits | backend/server.js:63 | a figure printed as digits reads as its decimal value |
| Status.NumberOfPercent | backend/server.js:63 | `85%` reads as 85 |
| Status.NumberWithoutDigits | backend/server.js:63 | a value without any digit reads as 0 |
| Status.Tokens | backend/server.js:57 | at least one token; blank output gives the single empty token; otherwise every token is a non-empty word; no token contains whitespace |
| Status.TokensOfWords | backend/server.js:57 | output made of non-blank words separated by single spaces, with any whitespace around them, has exactly those words as tokens |
| Status.SplitPieces | backend/server.js:59 | the first piece of a split is the text before the first separator; there are two or more pieces exactly when the separator occurs; the second piece lies between the first and second separators |
| Status.KeyValueSplit | backend/server.js:59 | the key and value are the first two pieces of `token.split('=')`, the value undefined when there is only one |
| Status.TokenLayout | backend/server.js:59 | a token is its key, then `=` and the value (ending at the token's end or at another `=`), or just a key without `=` |
| Status.BeforeLayout | backend/server.js:59 | the text before the first separator is a prefix without it, followed by the separator or the end |
| Status.AssignedKeys | backend/server.js:58-61 | a key is set exactly when some token carries it (except `__proto__`) |
| Status.AssignedLastWins | backend/server.js:58-61 | a set key holds the value of the last token carrying it: later tokens overwrite earlier ones |
| Status.AssignedFrom | backend/server.js:58-61 | every set key holds the value of some token that carries it |
| Status.AssignTokens | backend/server.js:58-61 | the first loop builds the object `Assigned` of the tokens |
| Status.Assigned | backend/server.js:58-61 | after the first loop every property holds a string or undefined, and `__proto__` is never set |
| Status.NormalizedAt | backend/server.js:62-64 | normalising distinct keys converts exactly the text values of those keys and leaves every other property, and every undefined one, as it was |
| Status.NormalizedNumeric | backend/server.js:62-64 | the same for the five numeric keys |
| Status.NormalizeFigures | backend/server.js:62-64 | the second loop yields `Normalized` over `ss`, `snq`, `seq`, `bps`, `pps` |
| Status.ParseStatus | backend/server.js:55-68 | parseStatus yields `StatusOf` of its output, which is well shaped |
| Status.StatusOf | backend/server.js:55-68 | every parsed status is well shaped, whatever the output: a non-empty channel text, a lock text, and no text under a numeric key |
| Status.NormalizedKinds | backend/server.js:62-64 | after the second loop no numeric key holds text, and channel and lock hold no number |
| Status.DefaultsShape | backend/server.js:65-66 | the defaults give a non-empty channel text and a lock text and leave the numeric keys alone |
| Status.WithDefaults | backend/server.js:65-66 | afterwards the channel is set and truthy and the lock is set; every other property is set exactly as before, with the same value |
| Status.DefaultsValues | backend/server.js:65-66 | a truthy channel or lock is kept; otherwise it becomes "none" or "" |
| Status.DefaultedKeysNotNumeric | backend/server.js:62 | `channel` and `lock` are not among the numeric keys |
| Status.StatusNumeric | backend/server.js:62-64 | a numeric key is present exactly when a token sets it; a text value becomes its figure and an undefined one stays undefined |
| Status.StatusOtherKey | backend/server.js:57-61 | any other key keeps exactly the value its last token gave it |
| Status.StatusChannelDefault | backend/server.js:65 | without a token giving a non-empty channel the channel is "none" |
| Status.StatusLockDefault | backend/server.js:66 | without a token giving a non-empty lock the lock is "" |
| Status.StatusChannelKept | backend/server.js:65 | the last channel token wins when its value is non-empty |
| Status.StatusFigure | backend/server.js:57-64 | a figure `key=value` among blank-separated words, the last word for its numeric key, gives that key the number read from its value |
| Status.StatusSingleFigure | backend/server.js:57-64 | output that is a single figure `key=value` gives the numeric key the number read from the value |
| Status.StatusPercent | backend/server.js:57-64 | end to end, the output `ss=85%` gives `ss` the number 85 |
| Status.IdleStatusShape | backend/server.js:203 | the idle status is well shaped, says "none" and "", and has zero under every numeric key |
| StreamInfo.VirtualFrom | backend/server.js:73 | where `.*?virtual\s+` continues: never before the start, and with room for `virtual` and a blank |
| StreamInfo.VirtualFromSound | backend/server.js:73 | the lazy search finds the first `virtual\s+` reachable without crossing a line terminator, and finds nothing only when there is none |
| StreamInfo.GroupsShape | backend/server.js:73 | the channel group holds digits and dots, the name group name characters |
| StreamInfo.ProgramAt | backend/server.js:73 | a match has a non-empty digit group and continues after it at a `virtual` inside the line |
| StreamInfo.ProgramAtSound | backend/server.js:73 | a match at a position has `program` there and `virtual\s+` where it continues |
| StreamInfo.MatchProgramSound | backend/server.js:73 | a line's match continues at a `virtual\s+` of the line |
| StreamInfo.StatusAt | backend/server.js:76 | a status match is a non-empty run of status characters |
| StreamInfo.StatusHintShape | backend/server.js:76 | the status hint is empty or made of status characters |
| StreamInfo.StatusHintEmpty | backend/server.js:76 | the status hint is "" exactly when the status pattern matches nowhere in the line |
| StreamInfo.StatusFound | backend/server.js:76 | the first `status=<word>` of a line gives its status hint |
| StreamInfo.StatusWritten | backend/server.js:76 | `status=<word>` followed by a non-status character matches with that word |
| StreamInfo.NoAssignmentNoHints | backend/server.js:75-76 | a line without `=` is never encrypted and has no status hint |
| StreamInfo.EncryptedMark | backend/server.js:75 | `encrypted=1` in any letter case marks the entry encrypted |
| StreamInfo.ProgramLineShaped | backend/server.js:77-83 | every entry has a channel of digits and dots, a trimmed call sign of name characters and a status of status characters |
| StreamInfo.ProgramLineOf | backend/server.js:77-80 | the entry of a matching line carries the value of the digit group, the channel group, and the trimmed name group as call sign |
| StreamInfo.ProgramLineNeedsWords | backend/server.js:73 | a line yields an entry only if it says `program` and, further on, `virtual` followed by whitespace |
| StreamInfo.ProgramLineFound | backend/server.js:73-74 | a line with `program <digits> virtual ` in it yields an entry |
| StreamInfo.ProgramLineFirst | backend/server.js:73 | at the first `program` of the line, that program number and `virtual` are the line's match |
| StreamInfo.ProgramWritten | backend/server.js:73 | the pattern matches `program <digits> virtual ` with those digits |
| StreamInfo.ProgramLineChannel | backend/server.js:79 | the virtual channel written after `virtual ` is the entry's channel |
| StreamInfo.ProgramLineCallsign | backend/server.js:73-80 | a line whose match is followed by a channel and a parenthesised name with no blank at either end lists that program number, channel and call sign; "program 3 virtual 5.1 (KABC)" lists channel 5.1 with call sign KABC |
| StreamInfo.CallsignGroups | backend/server.js:73-80 | after `virtual\s+`, a written channel, " (", a name and ")" are read back as the channel group and, once trimmed, as the call sign |
| StreamInfo.GroupsWritten | backend/server.js:73 | a channel, " (", a name and ")" written after `virtual ` are the channel group and the name group |
| StreamInfo.NameWritten | backend/server.js:73 | after the channel, `\s*\(?` takes " (" and the name run is exactly a written name followed by ")" |
| StreamInfo.ChannelWritten | backend/server.js:73 | a channel of digits and dots followed by a space is the channel group |
| StreamInfo.NumberWritten | backend/server.js:73 | `program ` followed by digits gives the digit run as the number group |
| StreamInfo.VirtualWritten | backend/server.js:73 | ` virtual ` written at a position is where the lazy search continues |
| StreamInfo.FirstProgram | backend/server.js:73 | the match at the first `program` of a line is the line's match |
| StreamInfo.ParseStreamInfo | backend/server.js:70-87 | the loop yields `Listed`: one entry per matching line, in line order, each well shaped |
| StreamInfo.ListedShaped | backend/server.js:70-87 | every listed entry is well shaped |
| StreamInfo.ListedInLineOrder | backend/server.js:72 | the entries of two blocks of lines are those of the first followed by those of the second |
| StreamInfo.ListedLine | backend/server.js:72-84 | a single line contributes its entry, if it has one, and nothing else |
| StreamInfo.ListPrograms | backend/server.js:177-186 | one streaminfo read; its entries, or the empty list when the read fails |
| Info.BackOff | frontend/src/components/SignalMeter.js:103 | where `(.+)` starts after `\s*` backs off: inside the whitespace run, at a character that is not a line terminator |
| Info.LineEnd | frontend/src/components/SignalMeter.js:103 | a greedy `.+` stays inside the text |
| Info.SysModelAtOneLine | frontend/src/components/SignalMeter.js:103 | a match's group lies on one line |
| Info.ParseSysModel | frontend/src/components/SignalMeter.js:102-105 | parseSysModel gives "Unknown", or one line of text without whitespace at either end |
| Info.SysModelNeedsColon | frontend/src/components/SignalMeter.js:103-104 | without a colon in the output the result is "Unknown" |
| Info.SysModelFound | frontend/src/components/SignalMeter.js:102-105 | a line "Model: <x>" with no "model" before it gives `x` trimmed |
| Info.SysModelWritten | frontend/src/components/SignalMeter.js:103 | the pattern matches a written "Model: <x>" with group `x` |
| Info.AssignPrefixEnd | backend/server.js:109 | where a leading `model\s*=` ends: after its `=` |
| Info.BackendModel | backend/server.js:109 | the backend never reports an empty model, nor one with whitespace at either end |
| Info.FrontendModel | frontend/src/components/SignalMeter.js:132 | the older copy never reports an empty model: when stripping leaves nothing it falls back to parseSysModel, which then gives "Unknown" |
| Info.ModelPlain | backend/server.js:109 | a bare model name, with trailing blanks, is reported as the name by both copies |
| Info.ModelAssigned | backend/server.js:109 | "model=<x>" is reported as `x` by both copies |
| Info.ModelSpaceAfterAssign | frontend/src/components/SignalMeter.js:132 | blanks after the `=` are dropped by the backend but kept by the older copy |
| Info.AssignPrefixOf | backend/server.js:109 | "model=" at the start of the text is the prefix both copies strip |
| Info.NoColonInside | frontend/src/components/SignalMeter.js:132 | text that trims to nothing or to a bare "model =" has no colon |
| Info.AssignPrefixNoColon | frontend/src/components/SignalMeter.js:132 | a bare "model =" has no colon |
| Info.Answered | backend/server.js:44-51 | the consecutive successful probes from an index never go past index 7 |
| Info.Probes | backend/server.js:44-46 | probe `i` of the sequence is the status read of tuner `i` |
| Info.AnsweredPrefix | backend/server.js:44-51 | the successes counted from 0 are those before an index plus those from it |
| Info.CountTuners | backend/server.js:42-53 | the loop issues the answered probes and the first failing one, and counts the answered ones, at most 8 |
| Info.TunerCountIs | backend/server.js:42-53 | a device answering probes `0..k-1` and failing probe `k` has `k` tuners (2 when `k` is 0), one answering all eight has 8, and `k+1` (at most 8) probes are issued |
| Info.TunerCount | backend/server.js:42-53 | the tuner count is between 1 and 8 |
| Info.BackendInfo | backend/server.js:105-116 | the model read, then the probes; the answer always succeeds, with the normalised model (never empty) and a count in 1..8 |
| Info.SysInfo | frontend/src/components/SignalMeter.js:127-131 | the read fails exactly when both the model read and the debug read fail, and then with the debug read's failure; a successful model read is used as it is |
| Info.FrontendInfo | frontend/src/components/SignalMeter.js:124-139 | the model read, the debug read only if that fails, then the probes; the request fails exactly when both reads fail, with the debug read's failure; otherwise the normalised model (never empty) and a count in 1..8 |
| Tuning.SplitChannelAsWritten | backend/server.js:140-149 | the split as the handler writes it (see Findings): text without a colon has no program, and text from which no program is split off is tuned as written |
| Tuning.SplitChannel | backend/server.js:140-149 | (corrected split) text without a colon has no program, and text from which no program is split off is tuned as written |
| Tuning.AsWrittenSplitsFrequency | backend/server.js:145-148 | the written split reads any "<name>:<digits>" as channel `name` with program `digits` |
| Tuning.AsWrittenAutoFrequency | backend/server.js:132 | in particular the listed form "auto:650000000" becomes channel "auto" with program 650000000 |
| Tuning.SplitsAgree | backend/server.js:145 | the written and corrected splits differ exactly on two-piece text whose second piece is a numeral and whose first is not |
| Tuning.SplitChannelExamples | backend/server.js:132 | (corrected split) "21" and "auto:650000000" are tuned as written, with no program |
| Tuning.SplitChannelFrequencyProgram | frontend/src/components/SignalMeter.js:166-169 | (corrected split) "auto:650000000:101" tunes "auto:650000000" with program "101" |
| Tuning.SplitChannelNumberProgram | frontend/src/components/SignalMeter.js:170-173 | (corrected split) "21:101" tunes "21" with program "101" |
| Tuning.SplitChannelThree | backend/server.js:142-144 | (corrected split) with three or more colon-separated pieces the channel is the first two, rejoined, and the program the third; later pieces are dropped |
| Tuning.SplitChannelPieces3 | backend/server.js:142-144 | (corrected split) "<a>:<b>:<p>" tunes "<a>:<b>" with program `p` |
| Tuning.SplitChannelProgram | backend/server.js:145-148 | (corrected split) "<number>:<number>" tunes the first with the second as program |
| Tuning.SplitChannelKeeps | backend/server.js:140-149 | (corrected split) any other two-piece text, such as "21:abc", is tuned as written with no program |
| Tuning.SplitChannelPlain | backend/server.js:140 | (corrected split) text without a colon is tuned as written with no program |
| Tuning.SplitChannelPieces | backend/server.js:140-149 | (corrected split) the channel tuned is never longer than the request's text, and the program is one of its colon-separated pieces |
| Tuning.TwoPieces | backend/server.js:141 | "<a>:<b>" splits into `a` and `b` |
| Tuning.SetChannelMap | backend/server.js:119-130 | a missing or empty map is rejected with no call; otherwise one channel-map set, and success exactly when it succeeds |
| Tuning.SetChannel | backend/server.js:133-161 | for a given split (the written one or the corrected one): a missing or empty channel is rejected with no call; otherwise the channel set comes first, the program set second and only when the first succeeded and there is a non-empty program; success exactly when every call issued succeeds; the answer names the channel and program used |
| Tuning.SetChannelWithProgram | backend/server.js:151-156 | with either split, a "21:101"-style request on a device accepting both calls issues the channel set, then the program set, and succeeds |
| Tuning.SetChannelThreePieces | frontend/src/components/SignalMeter.js:178-185 | (corrected split) an "auto:650000000:101"-style request issues channel "auto:650000000" then program "101" |
| Tuning.SetChannelFrequencyAsWritten | backend/server.js:140-154 | as written, an "auto:650000000"-style request on a device accepting the channel set issues channel "auto", then program "650000000" |
| Tuning.SetChannelFrequency | backend/server.js:132 | (corrected split) the same request is a single channel set of the whole text |
| Tuning.ClearTuner | backend/server.js:164-174 | the channel is set to "none" first; the program set to "none" follows only if that succeeded, and its failure is ignored; only the first call's failure is reported |
| Monitor.Tick | backend/server.js:198-205 | a tick always pushes a well-shaped status: the parsed status when the read succeeds, the idle status when it fails |
| Monitor.TickUnreachable | frontend/src/components/SignalMeter.js:235-238 | an unreachable device yields channel "none", lock "" and zero figures |
| Monitor.RunningIsStored | backend/server.js:191 | in a consistent registry a connection's running timers are exactly the one stored for it, or none |
| Monitor.StartKeeps | backend/server.js:194-208 | start keeps the registry consistent; afterwards the connection has exactly one running timer, the new one, and other connections keep theirs |
| Monitor.StopKeeps | backend/server.js:210-214 | stop keeps the registry consistent; afterwards the connection has no running timer, and other connections keep theirs |
| Monitor.StartTwiceRunsOne | frontend/src/components/SignalMeter.js:225-242 | starting twice on one connection leaves one running timer, polling the second target |
| Monitor.MonitorRegistry.constructor | backend/server.js:191 | the registry starts empty and consistent |
| Monitor.MonitorRegistry.Start | backend/server.js:194-208 | the previous handle, if any, is cleared; a fresh handle is stored; the connection's only running timer polls the new target; other connections are untouched |
| Monitor.MonitorRegistry.Stop | backend/server.js:210-214 | the stored handle, if any, is cleared and the entry deleted; nothing happens without one; other connections are untouched |
| Monitor.MonitorRegistry.Disconnect | backend/server.js:216-220 | the same as stop |

## Left out

- Process spawning (`execFile`, the timeout kill, output capture) is the oracle. The timeouts appear only as numbers in the calls.
- The error detail `e.stderr || e.message` is the oracle's failure text.
- HTTP status codes, JSON encoding of answers, CORS, static file serving and `server.listen` are not modelled. A handler's answer is `Ok` or `Err`.
- Request bodies are modelled as optional text. Non-string `map` or `channel` values, and the exception `channel.includes` raises on them, are not modelled.
- socket.io emission and the one-second interval timing are not modelled. Overlapping ticks and late results are not modelled either. A tick is the status it would push.
- A missing or malformed `start-monitoring` payload is not modelled.
- Monitor.MonitorRegistry.Start: handles are natural numbers issued in order; Node's timer objects are not modelled.
- Status.NumberOr0: `Number` is modelled on exact real values of the decimal literals that can remain after stripping. Floating-point rounding of long figures is not modelled.
- StreamInfo.ProgramLine: `Number(m[1])` of the digit group is its exact value. No floating-point rounding is applied to very long program numbers.
- Text.LowerAscii: case folding under `/i` covers ASCII letters only. That is all the patterns need, because a non-unicode pattern never folds a non-ASCII character to an ASCII one.
- Strings are sequences of characters. UTF-16 surrogate pairs are not modelled.
- Status.StatusOf: the object is a map, so the order of its properties is not modelled.
- Tuning.SetChannel: the answer carries the program as text. The source converts it with `Number`.
- Tuning.SetChannel: the split is a parameter. `SplitChannelAsWritten` is the handler's split as written; the corrected `SplitChannel` is the one the "(corrected split)" rows use, and `SplitsAgree` states exactly where the two differ (see Findings).
- StreamInfo.ParseStreamInfo: every line is read with the one pattern of backend/server.js:73; no other line layout is recognised.
- What the device does with the calls is the oracle's business. For example, "clear then read status shows none" is a property of the device, not of the gateway.
- Console logging is not modelled.
- Module-level code is not modelled. This includes SignalMeter.js using `cors` and `path` although their `require` lines are commented out.
- frontend/src/App.js is not part of this model; it is user-interface layout only.

## Findings

| source | as written | input that shows it | evidently intended | confidence | as-written member | corrected member |
|---|---|---|---|---|---|---|
| backend/server.js:145-148 (and frontend/src/components/SignalMeter.js:170-174) | two colon-separated pieces whose second piece is all digits are read as "<channel>:<program>", whatever the first piece is | "auto:650000000", one of the forms the handler's own comment lists as accepted (backend/server.js:132), sets channel "auto" and then program 650000000 | the two-piece program form is "<channel number>:<program>"; a modulation with a frequency such as "auto:650000000" is set as the channel unchanged | medium; not executed | Tuning.AsWrittenAutoFrequency | Tuning.SplitChannelExamples |

/** The tuning handlers: set a tuner's channel map, tune it to a channel (with an
    optional program given in the same text), and clear it. Each is a short
    sequence of `set` calls; a call whose failure is not tolerated ends the
    handler with that failure. */
module Tuning {
  import opened Text
  import opened Tool

  // ----- "channel:program" -----

  /** A non-empty digit string, `/^\d+$/`. */
  predicate IsNumeral(s: string) { s != [] && AllDigits(s) }

  /** The channel text and program a request's `channel` stands for, as the
      handler computes them: with three or more colon-separated pieces the
      program is the third and the channel the first two; with exactly two
      pieces and a numeral second piece, the program is the second and the
      channel the first; otherwise the text is the channel, with no program. */
  function SplitChannelAsWritten(channel: string): (r: (string, Option<string>))
    ensures ':' !in channel ==> r.1.None?
    ensures r.1.None? ==> r.0 == channel
  {
    if ':' !in channel then (channel, None)
    else
      var parts := Split(channel, ':');
      if |parts| >= 3 then (parts[0] + ":" + parts[1], Some(parts[2]))
      else if |parts| == 2 && IsNumeral(parts[1]) then (parts[0], Some(parts[1]))
      else (channel, None)
  }

  /** The handler's own list of accepted forms includes "auto:650000000", a
      frequency to tune after a modulation name, yet the two-piece rule reads any
      such text as channel "auto" with program 650000000. */
  lemma AsWrittenSplitsFrequency(modulation: string, frequency: string)
    requires ':' !in modulation && IsNumeral(frequency)
    ensures SplitChannelAsWritten(modulation + ":" + frequency) == (modulation, Some(frequency))
  {
    ColonFree(frequency);
    TwoPieces(modulation, frequency);
  }

  /** The listed form itself. */
  lemma AsWrittenAutoFrequency()
    ensures SplitChannelAsWritten("auto:650000000") == ("auto", Some("650000000"))
  {
    var f := "650000000";
    assert forall k | 0 <= k < |f| :: IsDigit(f[k]);
    assert "auto" + ":" + f == "auto:650000000";
    AsWrittenSplitsFrequency("auto", f);
  }

  /** The split the accepted forms call for: the two-piece form
      "<channel number>:<program>" needs a numeral on both sides of the colon;
      any other two-piece text, such as "auto:650000000", is a channel as it
      stands. The three-piece form is unchanged. */
  function SplitChannel(channel: string): (r: (string, Option<string>))
    ensures ':' !in channel ==> r.1.None?
    ensures r.1.None? ==> r.0 == channel
  {
    if ':' !in channel then (channel, None)
    else
      var parts := Split(channel, ':');
      if |parts| >= 3 then (parts[0] + ":" + parts[1], Some(parts[2]))
      else if |parts| == 2 && IsNumeral(parts[0]) && IsNumeral(parts[1]) then (parts[0], Some(parts[1]))
      else (channel, None)
  }

  /** The two splits differ exactly on two-piece text whose second piece is a
      numeral and whose first is not. */
  lemma SplitsAgree(channel: string)
    ensures SplitChannelAsWritten(channel) != SplitChannel(channel) <==>
      ':' in channel && |Split(channel, ':')| == 2
      && IsNumeral(Split(channel, ':')[1]) && !IsNumeral(Split(channel, ':')[0])
  {
    if ':' in channel {
      var parts := Split(channel, ':');
      if |parts| == 2 && IsNumeral(parts[1]) && !IsNumeral(parts[0]) {
        assert channel == parts[0] + ":" + parts[1];
        assert |parts[0]| < |channel|;
      }
    }
  }

  /** The forms the handler lists are all read as meant: "21" and
      "auto:650000000" are channels, ... */
  lemma SplitChannelExamples()
    ensures SplitChannel("21") == ("21", None)
    ensures SplitChannel("auto:650000000") == ("auto:650000000", None)
  {
    SplitChannelPlain("21");
    assert "auto" + ":" + "650000000" == "auto:650000000";
    assert !IsNumeral("auto") by { assert !IsDigit("auto"[0]); }
    SplitChannelKeeps("auto", "650000000");
  }

  /** ... "auto:650000000:101" is that frequency with program 101, ... */
  lemma SplitChannelFrequencyProgram()
    ensures SplitChannel("auto:650000000:101") == ("auto:650000000", Some("101"))
  {
    var a, b, p := "auto", "650000000", "101";
    assert a + ":" + b == "auto:650000000";
    assert a + ":" + b + ":" + p == "auto:650000000:101";
    SplitChannelPieces3(a, b, p);
  }

  /** ... and "21:101" is channel 21 with program 101. */
  lemma SplitChannelNumberProgram()
    ensures SplitChannel("21:101") == ("21", Some("101"))
  {
    var a, p := "21", "101";
    assert IsDigit(a[0]) && IsDigit(a[1]);
    assert IsDigit(p[0]) && IsDigit(p[1]) && IsDigit(p[2]);
    assert a + ":" + p == "21:101";
    SplitChannelProgram(a, p);
  }

  /** "<a>:<b>:<p>..." tunes "<a>:<b>" with program `p`; anything after a third
      colon is dropped. */
  lemma SplitChannelThree(pieces: seq<string>)
    requires |pieces| >= 3 && forall k | 0 <= k < |pieces| :: ':' !in pieces[k]
    ensures SplitChannel(Join(pieces, ':')) == (pieces[0] + ":" + pieces[1], Some(pieces[2]))
  {
    SplitJoin(pieces, ':');
    ColonInJoin(pieces);
  }

  /** "<a>:<b>:<p>" tunes "<a>:<b>" with program `p`. */
  lemma SplitChannelPieces3(a: string, b: string, p: string)
    requires ':' !in a && ':' !in b && ':' !in p
    ensures SplitChannel(a + ":" + b + ":" + p) == (a + ":" + b, Some(p))
  {
    var pieces := [a, b, p];
    assert Join(pieces[2..], ':') == p;
    assert Join(pieces[1..], ':') == b + ":" + p;
    assert Join(pieces, ':') == a + ":" + b + ":" + p;
    SplitChannelThree(pieces);
  }

  /** "<number>:<number>" tunes the first with the second as program. */
  lemma SplitChannelProgram(a: string, p: string)
    requires IsNumeral(a) && IsNumeral(p)
    ensures SplitChannel(a + ":" + p) == (a, Some(p))
  {
    ColonFree(a);
    ColonFree(p);
    TwoPieces(a, p);
  }

  /** "<a>:<b>" is tuned as written, colon included, unless both sides are
      numerals. */
  lemma SplitChannelKeeps(a: string, b: string)
    requires ':' !in a && ':' !in b && !(IsNumeral(a) && IsNumeral(b))
    ensures SplitChannel(a + ":" + b) == (a + ":" + b, None)
  {
    TwoPieces(a, b);
  }

  /** Text without a colon is the channel, with no program. */
  lemma SplitChannelPlain(channel: string)
    requires ':' !in channel
    ensures SplitChannel(channel) == (channel, None)
  {
  }

  /** A digit string holds no colon. */
  lemma ColonFree(p: string)
    requires AllDigits(p)
    ensures ':' !in p
  {
    forall k | 0 <= k < |p|
      ensures p[k] != ':'
    {
      assert IsDigit(p[k]);
    }
  }

  /** "<a>:<b>" splits into `a` and `b`. */
  lemma TwoPieces(a: string, b: string)
    requires ':' !in a && ':' !in b
    ensures ':' in a + ":" + b
    ensures Split(a + ":" + b, ':') == [a, b]
  {
    assert (a + ":" + b)[|a|] == ':';
    assert Join([a, b], ':') == a + ":" + b;
    SplitJoin([a, b], ':');
  }

  /** Joining two or more pieces puts a colon in the text. */
  lemma ColonInJoin(pieces: seq<string>)
    requires |pieces| >= 2
    ensures ':' in Join(pieces, ':')
  {
    assert Join(pieces, ':')[|pieces[0]|] == ':';
  }

  /** Whatever the text, the channel tuned is never longer than it, and the
      program is one of its colon-separated pieces. */
  lemma SplitChannelPieces(channel: string)
    ensures |SplitChannel(channel).0| <= |channel|
    ensures SplitChannel(channel).1.Some? ==> SplitChannel(channel).1.value in Split(channel, ':')
  {
    if ':' in channel {
      var parts := Split(channel, ':');
      if |parts| >= 3 {
        JoinLength(parts);
      } else if |parts| == 2 {
        assert channel == parts[0] + ":" + parts[1];
      }
    }
  }

  /** The first two pieces and the colon between them fit in the joined text. */
  lemma JoinLength(parts: seq<string>)
    requires |parts| >= 3
    ensures |parts[0]| + 1 + |parts[1]| <= |Join(parts, ':')|
  {
    assert Join(parts, ':') == parts[0] + ":" + Join(parts[1..], ':');
    assert Join(parts[1..], ':') == parts[1] + ":" + Join(parts[2..], ':');
  }

  // ----- the handlers -----

  datatype Tuned = Tuned(channel: string, program: Option<string>)

  /** `hdhomerun_config <id> set /tuner<tuner>/<leaf> <value>` */
  function TunerSet(id: string, tuner: string, leaf: string, value: string): Call {
    SetCall(id, TunerPath(tuner, leaf), value)
  }

  /** A body field that JavaScript treats as false: absent or the empty text. */
  predicate Missing(field: Option<string>) {
    field.None? || field.value == ""
  }

  /** POST .../channelmap: the map is required; one `set` of it. */
  function SetChannelMap(exec: Oracle, id: string, tuner: string, channelMap: Option<string>): (r: Reply<()>)
    ensures Missing(channelMap) <==> r.calls == []
    ensures Missing(channelMap) ==> r.result == Err(InvalidArgument("map is required"))
    ensures !Missing(channelMap) ==> r.calls == [TunerSet(id, tuner, "channelmap", channelMap.value)]
    ensures r.result.Ok? <==> !Missing(channelMap) && exec(r.calls[0]).Done?
  {
    if Missing(channelMap) then Reply([], Err(InvalidArgument("map is required")))
    else
      var call := TunerSet(id, tuner, "channelmap", channelMap.value);
      match exec(call)
      case Done(_) => Reply([call], Ok(()))
      case Failed(err) => Reply([call], Err(ToolFailure(err)))
  }

  /** A rule that reads a request's channel text as the channel to set and an
      optional program: SplitChannelAsWritten or SplitChannel. */
  type Splitter = string -> (string, Option<string>)

  /** POST .../channel, with the channel text read by `split`: the channel is
      required. The channel is set first; the program is set only when there is a
      non-empty one and the channel was set. The answer echoes the channel and
      program actually used. */
  function SetChannel(exec: Oracle, id: string, tuner: string, channel: Option<string>, split: Splitter): (r: Reply<Tuned>)
    ensures Missing(channel) <==> r.calls == []
    ensures Missing(channel) ==> r.result == Err(InvalidArgument("channel is required"))
    ensures !Missing(channel) ==>
      var (ch, program) := split(channel.value);
      && 1 <= |r.calls| <= 2
      && r.calls[0] == TunerSet(id, tuner, "channel", ch)
      && (|r.calls| == 2 <==> exec(r.calls[0]).Done? && !Missing(program))
      && (|r.calls| == 2 ==> r.calls[1] == TunerSet(id, tuner, "program", program.value))
      && (r.result.Ok? <==> forall k | 0 <= k < |r.calls| :: exec(r.calls[k]).Done?)
      && (r.result.Err? ==> r.result.failure == ToolFailure(exec(r.calls[|r.calls| - 1]).stderr))
      && (r.result.Ok? ==> r.result.value == Tuned(ch, if Missing(program) then None else program))
  {
    if Missing(channel) then Reply([], Err(InvalidArgument("channel is required")))
    else
      var (ch, program) := split(channel.value);
      var first := TunerSet(id, tuner, "channel", ch);
      match exec(first)
      case Failed(err) => Reply([first], Err(ToolFailure(err)))
      case Done(_) =>
        if Missing(program) then Reply([first], Ok(Tuned(ch, None)))
        else
          var second := TunerSet(id, tuner, "program", program.value);
          match exec(second)
          case Failed(err) => Reply([first, second], Err(ToolFailure(err)))
          case Done(_) => Reply([first, second], Ok(Tuned(ch, program)))
  }

  /** A "21:101"-style request on a device that accepts both calls: the channel
      part, then the program, are set, whichever split reads it. */
  lemma SetChannelWithProgram(exec: Oracle, id: string, tuner: string, a: string, p: string)
    requires IsNumeral(a) && IsNumeral(p)
    requires exec(TunerSet(id, tuner, "channel", a)).Done? && exec(TunerSet(id, tuner, "program", p)).Done?
    ensures var expected := Reply([TunerSet(id, tuner, "channel", a), TunerSet(id, tuner, "program", p)], Ok(Tuned(a, Some(p))));
      && SetChannel(exec, id, tuner, Some(a + ":" + p), SplitChannel) == expected
      && SetChannel(exec, id, tuner, Some(a + ":" + p), SplitChannelAsWritten) == expected
  {
    SplitChannelProgram(a, p);
    ColonFree(a);
    AsWrittenSplitsFrequency(a, p);
  }

  /** An "auto:650000000:101"-style request on a device that accepts both calls:
      "auto:650000000" is set as the channel, then "101" as the program. */
  lemma SetChannelThreePieces(exec: Oracle, id: string, tuner: string, a: string, b: string, p: string)
    requires ':' !in a && ':' !in b && ':' !in p && p != []
    requires exec(TunerSet(id, tuner, "channel", a + ":" + b)).Done? && exec(TunerSet(id, tuner, "program", p)).Done?
    ensures SetChannel(exec, id, tuner, Some(a + ":" + b + ":" + p), SplitChannel) ==
      Reply([TunerSet(id, tuner, "channel", a + ":" + b), TunerSet(id, tuner, "program", p)], Ok(Tuned(a + ":" + b, Some(p))))
  {
    SplitChannelPieces3(a, b, p);
  }

  /** The handler as written, on an "auto:650000000"-style request: it sets the
      channel to the modulation name and, if that succeeds, the program to the
      frequency. */
  lemma SetChannelFrequencyAsWritten(exec: Oracle, id: string, tuner: string, modulation: string, frequency: string)
    requires ':' !in modulation && IsNumeral(frequency)
    requires exec(TunerSet(id, tuner, "channel", modulation)).Done?
    ensures SetChannel(exec, id, tuner, Some(modulation + ":" + frequency), SplitChannelAsWritten).calls ==
      [TunerSet(id, tuner, "channel", modulation), TunerSet(id, tuner, "program", frequency)]
  {
    AsWrittenSplitsFrequency(modulation, frequency);
  }

  /** With the corrected split the same request is one call, setting the channel
      to the whole text. */
  lemma SetChannelFrequency(exec: Oracle, id: string, tuner: string, modulation: string, frequency: string)
    requires ':' !in modulation && ':' !in frequency && !IsNumeral(modulation)
    ensures SetChannel(exec, id, tuner, Some(modulation + ":" + frequency), SplitChannel).calls ==
      [TunerSet(id, tuner, "channel", modulation + ":" + frequency)]
  {
    SplitChannelKeeps(modulation, frequency);
  }

  /** POST .../clear: the channel is set to "none" (a failure ends the handler),
      then the program to "none", whose failure is ignored. */
  function ClearTuner(exec: Oracle, id: string, tuner: string): (r: Reply<()>)
    ensures 1 <= |r.calls| <= 2 && r.calls[0] == TunerSet(id, tuner, "channel", "none")
    ensures r.result.Ok? <==> exec(r.calls[0]).Done?
    ensures r.result.Ok? <==> r.calls == [TunerSet(id, tuner, "channel", "none"), TunerSet(id, tuner, "program", "none")]
    ensures r.result.Err? ==> |r.calls| == 1 && r.result.failure == ToolFailure(exec(r.calls[0]).stderr)
  {
    var first := TunerSet(id, tuner, "channel", "none");
    match exec(first)
    case Failed(err) => Reply([first], Err(ToolFailure(err)))
    case Done(_) => Reply([first, TunerSet(id, tuner, "program", "none")], Ok(()))
  }
}

/** Device information: the model name, read from `/sys/model` (or, in the
    SignalMeter copy, from `/sys/debug` when that read fails), and the number of
    tuners, found by probing `/tuner<i>/status` from index 0 until a probe fails. */
module Info {
  import opened Text
  import opened Tool

  // ----- parseSysModel: `/Model\s*:\s*(.+)/i` -----

  /** The pattern tried at `p`. The first `\s*` must end at the colon (no
      whitespace is a colon), so it is the maximal run; see ModelValue for the
      rest. */
  function SysModelAt(s: string, p: nat): Option<string> {
    if !LiteralAtCi(s, p, "model") then None
    else ModelAfterKey(s, SkipSpace(s, p + 5))
  }

  /** `:\s*(.+)` from `q`. */
  function ModelAfterKey(s: string, q: nat): Option<string>
    requires q <= |s|
  {
    if q == |s| || s[q] != ':' then None
    else ModelValue(s, q + 1)
  }

  /** `\s*(.+)` from `a`. The greedy `\s*` gives characters back one at a time
      until `(.+)` can take at least one character that is not a line
      terminator; the group then runs to the end of that line. */
  function ModelValue(s: string, a: nat): Option<string>
    requires a <= |s|
  {
    match BackOff(s, a, SkipSpace(s, a))
    case None => None
    case Some(t) => Some(s[t..LineEnd(s, t)])
  }

  /** The last position from `t` down to `a` where `(.+)` can start. */
  function BackOff(s: string, a: nat, t: nat): (r: Option<nat>)
    requires a <= t <= |s|
    ensures r.Some? ==> a <= r.value <= t && r.value < |s| && !IsLineTerminator(s[r.value])
    decreases t - a
  {
    if t < |s| && !IsLineTerminator(s[t]) then Some(t)
    else if t == a then None
    else BackOff(s, a, t - 1)
  }

  /** Where the line that `t` is on ends: what a greedy `.+` from `t` reaches. */
  function LineEnd(s: string, t: nat): (e: nat)
    requires t <= |s|
    ensures t <= e <= |s|
  {
    t + Span(s, t, Dot)
  }

  /** parseSysModel: the trimmed group of the leftmost match, or "Unknown". The
      model read from debug output is "Unknown" or text of one line with no
      whitespace at either end (possibly empty: a "Model:" followed by blanks
      only). */
  function ParseSysModel(output: string): (m: string)
    ensures m == "Unknown" || (AllIn(m, Dot) && (m == [] || (!IsSpace(m[0]) && !IsSpace(m[|m| - 1]))))
  {
    match FirstMatch(output, 0, SysModelAt)
    case Some(g) =>
      SysModelOneLine(output);
      TrimAllIn(g, Dot);
      Trim(g)
    case None => "Unknown"
  }

  /** A match's group lies on one line. */
  lemma SysModelAtOneLine(s: string, p: nat)
    ensures SysModelAt(s, p).Some? ==> AllIn(SysModelAt(s, p).value, Dot)
  {
    if SysModelAt(s, p).Some? {
      var a := SkipSpace(s, p + 5) + 1;
      var t := BackOff(s, a, SkipSpace(s, a)).value;
      SpanAll(s, t, Dot);
      assert SysModelAt(s, p).value == s[t..LineEnd(s, t)];
    }
  }

  /** The leftmost match's group lies on one line. */
  lemma SysModelOneLine(output: string)
    ensures FirstMatch(output, 0, SysModelAt).Some? ==> AllIn(FirstMatch(output, 0, SysModelAt).value, Dot)
  {
    var r := FirstMatch(output, 0, SysModelAt);
    if r.Some? {
      var p :| 0 <= p <= |output| && SysModelAt(output, p) == r;
      SysModelAtOneLine(output, p);
    }
  }

  /** Without a colon in the output nothing matches. */
  lemma SysModelNeedsColon(output: string)
    requires ':' !in output
    ensures ParseSysModel(output) == "Unknown"
  {
    assert forall p: nat :: SysModelAt(output, p).None?;
  }

  /** A line reading "Model: <x>", with no "model" in any letter case before it,
      gives `x` trimmed. */
  lemma SysModelFound(s: string, p: nat, x: string)
    requires p + 7 + |x| <= |s| && x != [] && !IsSpace(x[0]) && AllIn(x, Dot)
    requires LiteralAt(s, p, "Model: ") && LiteralAt(s, p + 7, x)
    requires p + 7 + |x| == |s| || IsLineTerminator(s[p + 7 + |x|])
    requires forall q | 0 <= q < p :: !LiteralAtCi(s, q, "model")
    ensures ParseSysModel(s) == Trim(x)
  {
    SysModelWritten(s, p, x);
    FirstMatchAt(s, 0, SysModelAt, p);
  }

  /** The match at a written "Model: <x>". */
  lemma SysModelWritten(s: string, p: nat, x: string)
    requires p + 7 + |x| <= |s| && x != [] && !IsSpace(x[0]) && AllIn(x, Dot)
    requires LiteralAt(s, p, "Model: ") && LiteralAt(s, p + 7, x)
    requires p + 7 + |x| == |s| || IsLineTerminator(s[p + 7 + |x|])
    ensures SysModelAt(s, p) == Some(x)
  {
    LiteralChars(s, p, "Model: ");
    assert LiteralAtCi(s, p, "model");
    SkipNone(s, p + 5);
    LiteralChars(s, p + 7, x);
    SkipNone(s, p + 7);
    assert SkipSpace(s, p + 6) == p + 7;
    RunAt(s, p + 7, x, Dot);
    assert s[p + 7..LineEnd(s, p + 7)] == x;
    assert ModelValue(s, p + 6) == Some(x);
  }

  // ----- the model name of GET /api/devices/<id>/info -----

  /** `^model\s*=` (any letter case): where it ends in `t`, if `t` starts with it. */
  function AssignPrefixEnd(t: string): (e: Option<nat>)
    ensures e.Some? ==> 6 <= e.value <= |t| && t[e.value - 1] == '='
  {
    if !LiteralAtCi(t, 0, "model") then None
    else
      var q := SkipSpace(t, 5);
      if q < |t| && t[q] == '=' then Some(q + 1) else None
  }

  /** backend/server.js: the trimmed `/sys/model` output (empty when the read
      failed) without a leading `model\s*=\s*`, or "Unknown" when nothing is left.
      The backend never reports an empty model, nor one with whitespace at either
      end. */
  function BackendModel(out: string): (m: string)
    ensures m != "" && !IsSpace(m[0]) && !IsSpace(m[|m| - 1])
  {
    var t := Trim(out);
    var rest := match AssignPrefixEnd(t) case Some(e) => t[SkipSpace(t, e)..] case None => t;
    UnpaddedRest(t, rest);
    if rest == "" then "Unknown" else rest
  }

  /** What is left of trimmed text after a leading `model\s*=\s*` has no
      whitespace at either end. */
  lemma UnpaddedRest(t: string, rest: string)
    requires t == [] || (!IsSpace(t[0]) && !IsSpace(t[|t| - 1]))
    requires rest == match AssignPrefixEnd(t) case Some(e) => t[SkipSpace(t, e)..] case None => t
    ensures rest == [] || (!IsSpace(rest[0]) && !IsSpace(rest[|rest| - 1]))
    ensures !IsSpace("Unknown"[0]) && !IsSpace("Unknown"[6])
  {
    if AssignPrefixEnd(t).Some? {
      var q := SkipSpace(t, AssignPrefixEnd(t).value);
      assert q == |t| || !In(t[q], Space);
    }
  }

  /** SignalMeter.js: the trimmed text without a leading `model\s*=` (whitespace
      after the `=` is kept), or, when nothing is left, parseSysModel of the
      untrimmed text. Neither does this copy report an empty model: when stripping
      leaves nothing, the text is blanks or a bare "model =", which has no colon,
      so parseSysModel gives "Unknown". */
  function FrontendModel(sysInfo: string): (m: string)
    ensures m != ""
  {
    var t := Trim(sysInfo);
    var rest := match AssignPrefixEnd(t) case Some(e) => t[e..] case None => t;
    if rest != "" then rest
    else
      NothingLeftNoColon(sysInfo, rest);
      SysModelNeedsColon(sysInfo);
      ParseSysModel(sysInfo)
  }

  /** When stripping leaves nothing of the SignalMeter copy's text, that text has
      no colon. */
  lemma NothingLeftNoColon(sysInfo: string, rest: string)
    requires var t := Trim(sysInfo);
      rest == match AssignPrefixEnd(t) case Some(e) => t[e..] case None => t
    requires rest == ""
    ensures ':' !in sysInfo
  {
    var t := Trim(sysInfo);
    match AssignPrefixEnd(t)
    case Some(e) =>
      assert e == |t|;
      NoColonInside(sysInfo);
    case None =>
      NoColonInside(sysInfo);
  }

  /** A bare model name, as `/sys/model` prints it, is reported as it is, by both
      copies. */
  lemma ModelPlain(x: string, tail: string)
    requires x != [] && !IsSpace(x[0]) && !IsSpace(x[|x| - 1]) && AllSpace(tail)
    requires AssignPrefixEnd(x).None?
    ensures BackendModel(x + tail) == x
    ensures FrontendModel(x + tail) == x
  {
    TrimTail(x, tail);
  }

  /** An assignment "model=<x>" is reported as `x` by both copies. */
  lemma ModelAssigned(x: string)
    requires x != [] && !IsSpace(x[0]) && !IsSpace(x[|x| - 1])
    ensures BackendModel("model=" + x) == x
    ensures FrontendModel("model=" + x) == x
  {
    var t := "model=" + x;
    assert t + [] == t;
    TrimTail(t, []);
    AssignPrefixOf(x);
    SkipNone(t, 6);
    assert t[6..] == x;
  }

  /** The two copies differ on blanks after the `=`: the backend drops them, the
      SignalMeter copy keeps them. */
  lemma ModelSpaceAfterAssign(x: string)
    requires x != [] && !IsSpace(x[0]) && !IsSpace(x[|x| - 1])
    ensures BackendModel("model= " + x) == x
    ensures FrontendModel("model= " + x) == " " + x
  {
    BackendSpaced(x);
    FrontendSpaced(x);
  }

  /** The backend drops the blank after `model=`. */
  lemma BackendSpaced(x: string)
    requires x != [] && !IsSpace(x[0]) && !IsSpace(x[|x| - 1])
    ensures BackendModel("model= " + x) == x
  {
    SpacedPieces(x);
  }

  /** The SignalMeter copy keeps the blank after `model=`. */
  lemma FrontendSpaced(x: string)
    requires x != [] && !IsSpace(x[0]) && !IsSpace(x[|x| - 1])
    ensures FrontendModel("model= " + x) == " " + x
  {
    SpacedPieces(x);
  }

  /** How "model= " followed by unpadded text is trimmed and stripped. */
  lemma SpacedPieces(x: string)
    requires x != [] && !IsSpace(x[0]) && !IsSpace(x[|x| - 1])
    ensures var t := "model= " + x;
      && Trim(t) == t && AssignPrefixEnd(t) == Some(6) && SkipSpace(t, 6) == 7
      && t[7..] == x && t[6..] == " " + x
  {
    var t := "model= " + x;
    assert Trim(t) == t by {
      assert t + [] == t;
      TrimTail(t, []);
    }
    assert AssignPrefixEnd(t) == Some(6) by {
      assert t == "model=" + (" " + x);
      AssignPrefixOf(" " + x);
    }
    assert t[7] == x[0];
    SkipNone(t, 7);
    assert t[7..] == x;
  }

  /** "model=" at the start of text is the prefix both copies strip. */
  lemma AssignPrefixOf(y: string)
    ensures AssignPrefixEnd("model=" + y) == Some(6)
  {
    var t := "model=" + y;
    assert t[0] == 'm' && t[1] == 'o' && t[2] == 'd' && t[3] == 'e' && t[4] == 'l' && t[5] == '=';
    assert LiteralAtCi(t, 0, "model");
    SkipNone(t, 5);
  }

  /** Text that trims to nothing, or to a bare "model =", has no colon. */
  lemma NoColonInside(s: string)
    requires var t := Trim(s); t == "" || AssignPrefixEnd(t) == Some(|t|)
    ensures ':' !in s
  {
    var t := Trim(s);
    if t != "" {
      AssignPrefixNoColon(t);
    }
    forall k | 0 <= k < |s|
      ensures s[k] != ':'
    {
      if !IsSpace(s[k]) {
        TrimKeeps(s, k);
      }
    }
  }

  /** A bare "model =" has no colon. */
  lemma AssignPrefixNoColon(t: string)
    requires AssignPrefixEnd(t) == Some(|t|)
    ensures ':' !in t
  {
    var q := SkipSpace(t, 5);
    SpanAll(t, 5, Space);
    forall k | 0 <= k < |t|
      ensures t[k] != ':'
    {
      if k < 5 {
        assert LowerAscii(t[k]) == "model"[k];
      }
    }
  }

  // ----- countTuners -----

  /** `hdhomerun_config <id> get /tuner<i>/status`, probe `i`. */
  function ProbeCall(id: string, i: nat): Call {
    GetCall(id, TunerPath(DecimalOf(i), "status"))
  }

  /** The number of consecutive successful probes from index `i`, up to index 7. */
  function Answered(exec: Oracle, id: string, i: nat): (n: nat)
    requires i <= 8
    ensures i + n <= 8
    decreases 8 - i
  {
    if i == 8 then 0
    else match exec(ProbeCall(id, i))
      case Failed(_) => 0
      case Done(_) => 1 + Answered(exec, id, i + 1)
  }

  /** countTuners' answer: the number of probes answered, or 2 when none was;
      always between 1 and 8. */
  function TunerCount(exec: Oracle, id: string): (n: nat)
    ensures 1 <= n <= 8
  {
    var n := Answered(exec, id, 0);
    if n == 0 then 2 else n
  }

  /** The probes `0 .. n-1`, in order. */
  function Probes(id: string, n: nat): (calls: seq<Call>)
    ensures |calls| == n && forall i | 0 <= i < n :: calls[i] == ProbeCall(id, i)
  {
    if n == 0 then [] else Probes(id, n - 1) + [ProbeCall(id, n - 1)]
  }

  /** The probes countTuners issues: the answered ones and the first one that
      fails, or all eight. */
  function ProbesIssued(exec: Oracle, id: string): seq<Call> {
    var n := Answered(exec, id, 0);
    Probes(id, if n < 8 then n + 1 else 8)
  }

  /** Answered probes from index 0 up to `i` add up. */
  lemma {:induction false} AnsweredPrefix(exec: Oracle, id: string, i: nat)
    requires i <= 8
    requires forall j | 0 <= j < i :: exec(ProbeCall(id, j)).Done?
    ensures Answered(exec, id, 0) == i + Answered(exec, id, i)
  {
    if i > 0 {
      AnsweredPrefix(exec, id, i - 1);
    }
  }

  /** countTuners: probe indices 0 to 7 in order, stop at the first failure. */
  method CountTuners(exec: Oracle, id: string) returns (calls: seq<Call>, count: nat)
    ensures calls == ProbesIssued(exec, id)
    ensures count == Answered(exec, id, 0)
    ensures 0 <= count <= 8
  {
    calls := [];
    count := 0;
    var i := 0;
    while i < 8
      invariant 0 <= i <= 8 && count == i
      invariant calls == Probes(id, i)
      invariant forall j | 0 <= j < i :: exec(ProbeCall(id, j)).Done?
      decreases 8 - i
    {
      calls := calls + [ProbeCall(id, i)];
      if exec(ProbeCall(id, i)).Failed? {
        AnsweredPrefix(exec, id, i);
        return;
      }
      count := count + 1;
      i := i + 1;
    }
    AnsweredPrefix(exec, id, 8);
  }

  /** A device that answers probes `0 .. k-1` and fails probe `k` has `k` tuners,
      or the default guess of 2 when `k` is 0; one answering all eight has 8. */
  lemma TunerCountIs(exec: Oracle, id: string, k: nat)
    requires k <= 8
    requires forall j | 0 <= j < k :: exec(ProbeCall(id, j)).Done?
    requires k < 8 ==> exec(ProbeCall(id, k)).Failed?
    ensures TunerCount(exec, id) == if k == 0 then 2 else k
    ensures |ProbesIssued(exec, id)| == if k < 8 then k + 1 else 8
  {
    AnsweredPrefix(exec, id, k);
  }

  // ----- GET /api/devices/<id>/info -----

  datatype DeviceInfo = DeviceInfo(id: string, model: string, tuners: nat)

  /** `hdhomerun_config <id> get /sys/model` */
  function ModelCall(id: string): Call { GetCall(id, "/sys/model") }

  /** `hdhomerun_config <id> get /sys/debug` */
  function DebugCall(id: string): Call { GetCall(id, "/sys/debug") }

  /** backend/server.js: the `/sys/model` output, or nothing when the read fails. */
  function ModelOutput(exec: Oracle, id: string): string {
    match exec(ModelCall(id)) case Done(out) => out case Failed(_) => ""
  }

  /** backend/server.js: the model read, whose failure counts as empty output,
      then the tuner count; the handler always answers. */
  method BackendInfo(exec: Oracle, id: string) returns (reply: Reply<DeviceInfo>)
    ensures reply.calls == [ModelCall(id)] + ProbesIssued(exec, id)
    ensures reply.result == Ok(DeviceInfo(id, BackendModel(ModelOutput(exec, id)), TunerCount(exec, id)))
    ensures reply.result.value.model != "" && 1 <= reply.result.value.tuners <= 8
  {
    var model := BackendModel(ModelOutput(exec, id));
    var probes, count := CountTuners(exec, id);
    var tuners := if count == 0 then 2 else count;
    reply := Reply([ModelCall(id)] + probes, Ok(DeviceInfo(id, model, tuners)));
  }

  /** SignalMeter.js: the `/sys/model` output, or, when that read fails, the model
      parsed from `/sys/debug`; the request fails only when both reads fail, and
      then with the debug read's failure. A successful model read is used as it
      is. */
  function SysInfo(exec: Oracle, id: string): (r: Result<string>)
    ensures r.Err? <==> exec(ModelCall(id)).Failed? && exec(DebugCall(id)).Failed?
    ensures r.Err? ==> r.failure == ToolFailure(exec(DebugCall(id)).stderr)
    ensures exec(ModelCall(id)).Done? ==> r == Ok(exec(ModelCall(id)).stdout)
  {
    match exec(ModelCall(id))
    case Done(out) => Ok(out)
    case Failed(_) =>
      match exec(DebugCall(id))
      case Done(dbg) => Ok(ParseSysModel(dbg))
      case Failed(err) => Err(ToolFailure(err))
  }

  /** The reads SysInfo makes: the model read, and the debug read when that fails. */
  function SysInfoCalls(exec: Oracle, id: string): seq<Call> {
    if exec(ModelCall(id)).Done? then [ModelCall(id)] else [ModelCall(id), DebugCall(id)]
  }

  /** SignalMeter.js: the model text (with its fallback), then the tuner count. */
  method FrontendInfo(exec: Oracle, id: string) returns (reply: Reply<DeviceInfo>)
    ensures reply.calls == SysInfoCalls(exec, id) + (if SysInfo(exec, id).Ok? then ProbesIssued(exec, id) else [])
    ensures reply.result.Err? <==> exec(ModelCall(id)).Failed? && exec(DebugCall(id)).Failed?
    ensures reply.result.Err? ==> reply.result.failure == SysInfo(exec, id).failure
    ensures reply.result.Ok? ==>
      && reply.result.value.model == FrontendModel(SysInfo(exec, id).value)
      && reply.result.value.id == id && reply.result.value.tuners == TunerCount(exec, id)
      && reply.result.value.model != "" && 1 <= reply.result.value.tuners <= 8
  {
    var sysInfo := SysInfo(exec, id);
    if sysInfo.Err? {
      reply := Reply(SysInfoCalls(exec, id), Err(sysInfo.failure));
      return;
    }
    var model := FrontendModel(sysInfo.value);
    var probes, count := CountTuners(exec, id);
    var tuners := if count == 0 then 2 else count;
    reply := Reply(SysInfoCalls(exec, id) + probes, Ok(DeviceInfo(id, model, tuners)));
  }
}

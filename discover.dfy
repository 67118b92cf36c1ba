/** Device discovery: `hdhomerun_config discover` prints one line per device found,
    and the gateway keeps the id and address of every line that reads
    "hdhomerun device <hex id> found at <address>". */
module Discover {
  import opened Text
  import opened Tool

  datatype Device = Device(id: string, ip: string)

  const DevicePrefix: string := "hdhomerun device "
  const FoundAt: string := " found at "

  /** An id of hexadecimal digits and an address of digits and dots, both non-empty. */
  predicate WellFormed(d: Device) {
    && d.id != [] && (forall k | 0 <= k < |d.id| :: IsHexDigit(d.id[k]))
    && d.ip != [] && (forall k | 0 <= k < |d.ip| :: IsDigitOrDot(d.ip[k]))
  }

  /** The text a device line contains. */
  function Announcement(d: Device): string {
    DevicePrefix + d.id + FoundAt + d.ip
  }

  /** `/hdhomerun device ([0-9A-Fa-f]+) found at ([0-9.]+)/` tried at position `i`.
      The id run is maximal (the character after it must be the space of
      " found at ", which no hex digit is, so backtracking cannot help) and the
      greedy address run with nothing after it is maximal too. */
  function DeviceAt(line: string, i: nat): Option<Device> {
    if !LiteralAt(line, i, DevicePrefix) then None
    else DeviceFrom(line, i + |DevicePrefix|)
  }

  /** `([0-9A-Fa-f]+) found at ([0-9.]+)` from `j`. */
  function DeviceFrom(line: string, j: nat): Option<Device>
    requires j <= |line|
  {
    var k := j + Span(line, j, HexDigit);
    if k == j || !LiteralAt(line, k, FoundAt) then None
    else
      match AddressAt(line, k + |FoundAt|)
      case None => None
      case Some(ip) => Some(Device(line[j..k], ip))
  }

  /** `([0-9.]+)` at `m`. */
  function AddressAt(line: string, m: nat): Option<string>
    requires m <= |line|
  {
    var n := Span(line, m, DigitOrDot);
    if n == 0 then None else Some(line[m..m + n])
  }

  /** A match is a well-formed device whose announcement is written where it was
      found. */
  lemma DeviceAtSound(line: string, i: nat)
    ensures DeviceAt(line, i).Some? ==>
      WellFormed(DeviceAt(line, i).value) && LiteralAt(line, i, Announcement(DeviceAt(line, i).value))
  {
    if DeviceAt(line, i).Some? {
      var j := i + |DevicePrefix|;
      var k := j + Span(line, j, HexDigit);
      var m := k + |FoundAt|;
      var n := Span(line, m, DigitOrDot);
      var d := Device(line[j..k], line[m..m + n]);
      assert DeviceAt(line, i) == Some(d);
      SpanAll(line, j, HexDigit);
      SpanAll(line, m, DigitOrDot);
      AnnouncementPieces(line, i, j, k, m, d);
    }
  }

  /** An announcement is written at `i` exactly when its four pieces are written one
      after the other from `i`. */
  lemma AnnouncementPieces(line: string, i: nat, j: nat, k: nat, m: nat, d: Device)
    requires j == i + |DevicePrefix| && k == j + |d.id| && m == k + |FoundAt|
    ensures LiteralAt(line, i, Announcement(d)) <==>
      && LiteralAt(line, i, DevicePrefix) && LiteralAt(line, j, d.id)
      && LiteralAt(line, k, FoundAt) && LiteralAt(line, m, d.ip)
  {
    LiteralAtConcat(line, i, DevicePrefix, d.id);
    LiteralAtConcat(line, i, DevicePrefix + d.id, FoundAt);
    LiteralAtConcat(line, i, DevicePrefix + d.id + FoundAt, d.ip);
  }

  /** `line.match(...)`: the leftmost match in the line, if any. It is a
      well-formed device announced in the line. */
  function MatchDevice(line: string): (r: Option<Device>)
    ensures r.Some? ==> WellFormed(r.value) && exists i: nat :: LiteralAt(line, i, Announcement(r.value))
  {
    FirstDeviceSound(line);
    FirstMatch(line, 0, DeviceAt)
  }

  /** The leftmost match is one of the matches at a position. */
  lemma FirstDeviceSound(line: string)
    ensures var r := FirstMatch(line, 0, DeviceAt);
      r.Some? ==> WellFormed(r.value) && exists i: nat :: LiteralAt(line, i, Announcement(r.value))
  {
    var r := FirstMatch(line, 0, DeviceAt);
    if r.Some? {
      var k :| 0 <= k <= |line| && DeviceAt(line, k) == r;
      DeviceAtSound(line, k);
    }
  }

  /** Every line that contains an announcement matches: the id is the announced one
      and the announced address is the start of the extracted one (the address
      run stops only at a character that is neither digit nor dot). */
  lemma LineWithDeviceMatches(line: string, i: nat, d: Device)
    requires WellFormed(d) && LiteralAt(line, i, Announcement(d))
    ensures MatchDevice(line).Some?
    ensures DeviceAt(line, i).Some? && DeviceAt(line, i).value.id == d.id
    ensures d.ip <= DeviceAt(line, i).value.ip
  {
    var j := i + |DevicePrefix|;
    var k := j + |d.id|;
    var m := k + |FoundAt|;
    AnnouncementPieces(line, i, j, k, m, d);
    PieceRuns(line, j, k, m, d);
    DeviceFromRuns(line, j, k, m);
    assert DeviceAt(line, i) == DeviceFrom(line, j);
    FirstMatchFinds(line, i, DeviceAt);
  }

  /** When the announcement is the first "hdhomerun device " of the line, the line's
      match is the device read there: the announced id, and an address that
      starts with the announced one. */
  lemma LineFirstDevice(line: string, i: nat, d: Device)
    requires WellFormed(d) && LiteralAt(line, i, Announcement(d))
    requires forall j | 0 <= j < i :: !LiteralAt(line, j, DevicePrefix)
    ensures MatchDevice(line) == DeviceAt(line, i)
    ensures MatchDevice(line).Some? && MatchDevice(line).value.id == d.id
    ensures d.ip <= MatchDevice(line).value.ip
  {
    LineWithDeviceMatches(line, i, d);
    assert forall j | 0 <= j < i :: DeviceAt(line, j).None?;
    FirstMatchAt(line, 0, DeviceAt, i);
  }

  /** The device read from `j` once its runs are known. */
  lemma DeviceFromRuns(line: string, j: nat, k: nat, m: nat)
    requires j < k <= |line| && k == j + Span(line, j, HexDigit)
    requires LiteralAt(line, k, FoundAt) && m == k + |FoundAt| && Span(line, m, DigitOrDot) > 0
    ensures DeviceFrom(line, j) == Some(Device(line[j..k], line[m..m + Span(line, m, DigitOrDot)]))
  {
    assert AddressAt(line, m) == Some(line[m..m + Span(line, m, DigitOrDot)]);
  }

  /** The id run after the prefix is exactly the written id; the address run starts
      with the written address. */
  lemma PieceRuns(line: string, j: nat, k: nat, m: nat, d: Device)
    requires WellFormed(d) && k == j + |d.id| && m == k + |FoundAt|
    requires LiteralAt(line, j, d.id) && LiteralAt(line, k, FoundAt) && LiteralAt(line, m, d.ip)
    ensures k == j + Span(line, j, HexDigit) && line[j..k] == d.id
    ensures Span(line, m, DigitOrDot) >= |d.ip| > 0
    ensures d.ip <= line[m..m + Span(line, m, DigitOrDot)]
  {
    RunAt(line, j, d.id, HexDigit);
    RunAt(line, m, d.ip, DigitOrDot);
    assert line[k] == FoundAt[0] == ' ';
    var n := Span(line, m, DigitOrDot);
    assert line[m..m + n][..|d.ip|] == line[m..m + |d.ip|];
  }

  /** `output.split('\n')`, one device per matching line, in line order. Every
      discovered device is well formed. */
  function Discovered(output: string): (devices: seq<Device>)
    ensures forall d | d in devices :: WellFormed(d)
  {
    CollectAll(Split(output, '\n'), MatchDevice, WellFormed);
    Collect(Split(output, '\n'), MatchDevice)
  }

  /** parseDiscover: the forEach over the lines, pushing each match. */
  method ParseDiscover(output: string) returns (devices: seq<Device>)
    ensures devices == Discovered(output)
    ensures forall d | d in devices :: WellFormed(d)
  {
    devices := CollectLines(Split(output, '\n'), MatchDevice);
  }

  /** Lines are handled independently and in order: the devices of two blocks of
      lines are those of the first block followed by those of the second. */
  lemma DiscoveredInLineOrder(a: string, b: string)
    ensures Discovered(a + "\n" + b) == Discovered(a) + Discovered(b)
  {
    SplitConcat(a, b, '\n');
    CollectAppend(Split(a, '\n'), Split(b, '\n'), MatchDevice);
  }

  /** A single line contributes its match and nothing else. */
  lemma DiscoveredLine(line: string)
    requires '\n' !in line
    ensures Discovered(line) == match MatchDevice(line) case Some(d) => [d] case None => []
  {
    assert Split(line, '\n') == [line];
    assert [line][..0] == [];
  }

  /** Empty output, or output with no announcement in it, yields no device and no
      error. */
  lemma DiscoveredNothing(output: string)
    requires forall i: nat, d: Device :: WellFormed(d) ==> !LiteralAt(output, i, Announcement(d))
    ensures Discovered(output) == []
  {
    var lines := Split(output, '\n');
    forall l | 0 <= l < |lines|
      ensures MatchDevice(lines[l]).None?
    {
      if MatchDevice(lines[l]).Some? {
        var d := MatchDevice(lines[l]).value;
        var i: nat :| LiteralAt(lines[l], i, Announcement(d));
        LineInOutput(lines, l, i, Announcement(d));
        assert false;
      }
    }
    CollectNone(lines, MatchDevice);
  }

  /** Text inside one line of the output is text inside the output. */
  lemma {:induction false} LineInOutput(lines: seq<string>, l: nat, i: nat, w: string)
    requires l < |lines| && LiteralAt(lines[l], i, w)
    ensures exists o: nat :: LiteralAt(Join(lines, '\n'), o, w)
    decreases |lines|
  {
    if |lines| > 1 {
      var rest := Join(lines[1..], '\n');
      assert Join(lines, '\n') == lines[0] + ['\n'] + rest;
      if l == 0 {
        assert Join(lines, '\n')[i..i + |w|] == lines[0][i..i + |w|];
        assert LiteralAt(Join(lines, '\n'), i, w);
      } else {
        LineInOutput(lines[1..], l - 1, i, w);
        var o: nat :| LiteralAt(rest, o, w);
        var o' := o + |lines[0]| + 1;
        assert Join(lines, '\n')[o'..o' + |w|] == rest[o..o + |w|];
        assert LiteralAt(Join(lines, '\n'), o', w);
      }
    } else {
      assert Join(lines, '\n') == lines[0];
    }
  }

  /** `hdhomerun_config discover` */
  const DiscoverCall: Call := Call(["discover"], DefaultTimeout)

  /** GET /api/devices: one call; its output parsed, or its failure reported. */
  method DiscoverDevices(exec: Oracle) returns (reply: Reply<seq<Device>>)
    ensures reply.calls == [DiscoverCall]
    ensures reply.result == match exec(DiscoverCall)
      case Done(out) => Ok(Discovered(out))
      case Failed(err) => Err(ToolFailure(err))
  {
    match exec(DiscoverCall)
    case Done(out) =>
      var devices := ParseDiscover(out);
      reply := Reply([DiscoverCall], Ok(devices));
    case Failed(err) =>
      reply := Reply([DiscoverCall], Err(ToolFailure(err)));
  }
}

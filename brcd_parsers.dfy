/** What the second driver (`napalm_brcd`) makes of the text a switch prints: the CPU load and
    the placeholder sensors of the environment, the system facts and the ARP table. */
module BrcdParsers {
  import opened Outcomes
  import opened PyText
  import opened Probes
  import opened Tables
  import opened SharedParsers

  // ---------------------------------------------------------------------------
  // get_environment

  /** `environment['cpu'][0]['%load']`: 0.0 unless the statistics line gives a one-minute load,
      which is kept as the decimal text `float` reads. */
  datatype CpuLoad = DefaultLoad | Measured(decimal: string)

  /** The placeholder entries, all stored under the key `invalid`. */
  datatype PowerState = PowerState(status: bool, output: real, capacity: real)
  datatype TemperatureState = TemperatureState(isAlert: bool, isCritical: bool, temperature: real)

  datatype Environment = Environment(
    cpu: map<int, CpuLoad>,
    power: map<string, PowerState>,
    fans: map<string, bool>,
    temperature: map<string, TemperatureState>)

  const Marker := "Realtime Statistics"

  /** The lines the loop pops from: `output.strip().splitlines()`. */
  function CpuLines(output: string): seq<string> { SplitLines(Strip(output)) }

  /** The `while True` loop: pop lines up to the first that contains the marker, then pop the
      next and read its one-minute load; popping from an empty list raises IndexError. */
  function CpuFrom(lines: seq<string>): Result<CpuLoad>
    decreases |lines|
  {
    if lines == [] then Err(IndexError)
    else if Contains(lines[0], Marker) then
      if |lines| == 1 then Err(IndexError)
      else match OneMinuteLoad(lines[1]) case None => Ok(DefaultLoad) case Some(d) => Ok(Measured(d))
    else CpuFrom(lines[1..])
  }

  /** The loop itself, popping from the front of the list. */
  method ReadCpuLoad(lines: seq<string>) returns (r: Result<CpuLoad>)
    ensures r == CpuFrom(lines)
  {
    var rest := lines;
    while true
      invariant CpuFrom(rest) == CpuFrom(lines)
      decreases |rest|
    {
      if rest == [] {
        return Err(IndexError);
      }
      var line := rest[0];
      rest := rest[1..];
      if Contains(line, Marker) {
        if rest == [] {
          return Err(IndexError);
        }
        line := rest[0];
        rest := rest[1..];
        var load := OneMinuteLoad(line);
        if load.None? {
          return Ok(DefaultLoad);
        }
        return Ok(Measured(load.value));
      }
    }
  }

  /** The first line holding the marker decides: the load of the line after it (or the
      default when that line has none), IndexError when the marker is on the last line. */
  lemma {:induction false} CpuAtMarker(lines: seq<string>, i: nat)
    requires i < |lines| && Contains(lines[i], Marker)
    requires forall j :: 0 <= j < i ==> !Contains(lines[j], Marker)
    ensures CpuFrom(lines) ==
            if i + 1 == |lines| then Err(IndexError)
            else match OneMinuteLoad(lines[i + 1]) case None => Ok(DefaultLoad) case Some(d) => Ok(Measured(d))
    ensures CpuFrom(lines).Ok? && CpuFrom(lines).value.Measured? ==> IsDecimal(CpuFrom(lines).value.decimal)
    decreases i
  {
    if i > 0 {
      CpuAtMarker(lines[1..], i - 1);
    } else if i + 1 < |lines| {
      OneMinuteLoadMatches(lines[1]);
    }
  }

  /** Without the marker the loop runs out of lines and raises IndexError. */
  lemma {:induction false} CpuWithoutMarker(lines: seq<string>)
    requires forall j :: 0 <= j < |lines| ==> !Contains(lines[j], Marker)
    ensures CpuFrom(lines) == Err(IndexError)
    decreases |lines|
  {
    if lines != [] {
      CpuWithoutMarker(lines[1..]);
    }
  }

  /** The environment around a CPU load: every other sensor is the `invalid` placeholder. */
  function EnvironmentWith(load: CpuLoad): (e: Environment)
    ensures e.cpu == map[0 := load]
    ensures e.power.Keys == e.fans.Keys == e.temperature.Keys == {"invalid"}
    ensures e.fans["invalid"] && e.power["invalid"].status
    ensures e.power["invalid"].output == e.power["invalid"].capacity == e.temperature["invalid"].temperature == -1.0
    ensures !e.temperature["invalid"].isAlert && !e.temperature["invalid"].isCritical
  {
    Environment(
      map[0 := load],
      map["invalid" := PowerState(true, -1.0, -1.0)],
      map["invalid" := true],
      map["invalid" := TemperatureState(false, false, -1.0)])
  }

  /** What `get_environment` makes of the reply to `show proc cpu`. */
  function EnvironmentOf(output: string): Result<Environment> {
    match CpuFrom(CpuLines(output))
    case Err(e) => Err(e)
    case Ok(load) => Ok(EnvironmentWith(load))
  }

  // ---------------------------------------------------------------------------
  // get_facts

  /** The probes tried on each line: `Up Time.*: (.*)$`, `^.*Version.*: (.*)$` and
      `^Management IP.*: (.*)$`. */
  const FactProbes: seq<Probe> := [
    Probe("uptime", UpTime),
    Probe("os_version", AnyVersion),
    Probe("management_ip", ManagementIp)
  ]

  /** `show system`: `split('\n')[3:-1]`. */
  function FactLines(output: string): seq<string> { TableBody(SplitNewline(output), 3) }

  /** What `get_facts` makes of the reply, starting from an empty dictionary. */
  function FactsOf(output: string): map<string, string> { FactsFrom(FactLines(output), map[], FactProbes) }

  /** Without an empty line, each fact holds what its expression captures on the LAST line it
      matches, a fact no line matches is absent, and there are no other keys. */
  lemma FactsFields(output: string)
    requires forall i :: 0 <= i < |FactLines(output)| ==> |FactLines(output)[i]| > 0
    ensures var facts, lines := FactsOf(output), FactLines(output);
            KeyState(facts, "uptime") == LastMatch(lines, UpTime) &&
            KeyState(facts, "os_version") == LastMatch(lines, AnyVersion) &&
            KeyState(facts, "management_ip") == LastMatch(lines, ManagementIp)
    ensures forall k :: k in FactsOf(output) ==> k in {"uptime", "os_version", "management_ip"}
  {
    var lines := FactLines(output);
    assert DistinctKeys(FactProbes);
    FactsLastMatch(lines, map[], FactProbes, 0);
    FactsLastMatch(lines, map[], FactProbes, 1);
    FactsLastMatch(lines, map[], FactProbes, 2);
    forall k | k in FactsOf(output) ensures k in {"uptime", "os_version", "management_ip"} {
      if k !in {"uptime", "os_version", "management_ip"} {
        FactsOtherKey(lines, map[], FactProbes, k);
      }
    }
  }

  /** An empty line among the facts makes the call return `{}`. */
  lemma FactsBlank(output: string, i: nat)
    requires i < |FactLines(output)| && |FactLines(output)[i]| == 0
    ensures FactsOf(output) == map[]
  {
    FactsBlankLine(FactLines(output), map[], FactProbes, i);
  }

  // ---------------------------------------------------------------------------
  // get_arp_table

  /** One entry: no `type`, and the hardware address exactly as printed. */
  datatype ArpEntry = ArpEntry(interface: string, mac: string, ip: string, age: Age)

  /** `address, mac, interface, macresolved, age, type`: exactly six tokens, or ValueError. */
  function ArpRow(t: seq<string>): Result<ArpEntry> {
    if |t| == 6 then Ok(ArpEntry(t[2], t[1], t[0], ArpAge(t[4]))) else Err(UnexpectedOutput(t))
  }

  /** `show arp`: `split('\n')[2:-1]`. */
  function ArpLines(output: string): seq<string> { TableBody(SplitNewline(output), 2) }

  /** What `get_arp_table` makes of the reply. */
  function ArpTableOf(output: string): Result<Table<ArpEntry>> { Scan(ArpLines(output), ArpRow, ReturnEmptyDict) }

  /** A table of six-token rows under two header lines lists one entry per row, in order. */
  lemma ArpOfRendered(header: seq<string>, rows: seq<seq<string>>)
    requires |header| == 2 && forall i :: 0 <= i < 2 ==> '\n' !in header[i]
    requires TokenRows(rows) && forall i :: 0 <= i < |rows| ==> |rows[i]| == 6
    ensures var r := ArpTableOf(Rendered(header, rows));
            r.Ok? && r.value.Rows? && |r.value.rows| == |rows| &&
            forall i :: 0 <= i < |rows| ==>
              r.value.rows[i] == ArpEntry(rows[i][2], rows[i][1], rows[i][0], ArpAge(rows[i][4]))
  {
    NonEmptyRowsAll(rows);
    ScanOfRendered(header, rows, ArpRow, ReturnEmptyDict);
  }

  /** The first line that is empty or not of six tokens decides the call. */
  lemma ArpStop(output: string, i: nat)
    requires var lines := ArpLines(output);
             i < |lines| && (|lines[i]| == 0 || |Tokens(lines[i])| != 6) &&
             forall j :: 0 <= j < i ==> |lines[j]| > 0 && |Tokens(lines[j])| == 6
    ensures var lines := ArpLines(output);
            ArpTableOf(output) == if |lines[i]| == 0 then Ok(EmptyDict) else Err(UnexpectedOutput(Tokens(lines[i])))
  {
    ScanStops(ArpLines(output), [], ArpRow, ReturnEmptyDict, i);
  }
}

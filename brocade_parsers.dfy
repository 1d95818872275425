/** What the first driver (`napalm_brocade`) makes of the text a switch prints: the
    environment, the system facts, and the VLAN, ARP and MAC address tables. */
module BrocadeParsers {
  import opened Outcomes
  import opened PyText
  import opened Probes
  import opened Tables
  import opened SharedParsers

  // ---------------------------------------------------------------------------
  // get_environment

  /** One sensor of `show environment temp`; `is_alert` and `is_critical` are set alike. */
  datatype Temperature = Temperature(temperature: string, isAlert: bool, isCritical: bool)

  /** The environment dictionary. Fans and power supplies map their index to their `status`;
      `cpu` is always the empty dictionary and both RAM fields the empty string. */
  datatype Environment = Environment(
    fans: map<string, bool>,
    power: map<string, bool>,
    temperature: map<string, Temperature>,
    cpu: map<string, real>,
    availableRam: string,
    usedRam: string)

  /** A probe that finds an index and a status word, turned into an entry whose status is
      whether the word is `ok` exactly. */
  function StatusEntry(probe: string -> Option<(string, string)>, ok: string): string -> Option<(string, bool)> {
    line => match probe(line) case None => None case Some(m) => Some((m.0, m.1 == ok))
  }

  /** `^Fan (.*) is (.*),.*$`: fan index, and whether the status is `Ok`. */
  function FanEntry(line: string): Option<(string, bool)> { StatusEntry(Fan, "Ok")(line) }

  /** `^Power Supply #(.*) is (.*)$`: supply index, and whether the status is `OK`. */
  function PowerEntry(line: string): Option<(string, bool)> { StatusEntry(PowerSupply, "OK")(line) }

  /** A line of exactly four tokens: name, status, temperature, and one more column. */
  function TemperatureEntry(line: string): Option<(string, Temperature)> {
    var t := Tokens(line);
    if |t| == 4 then Some((t[0], Temperature(t[2], t[1] != "Ok", t[1] != "Ok"))) else None
  }

  /** Fans are looked for on every line of `show environment fan`. */
  function FanLines(output: string): seq<string> { SplitLines(output) }

  /** `show environment power`: `splitlines()[1:-1]`. */
  function PowerLines(output: string): seq<string> { TableBody(SplitLines(output), 1) }

  /** `show environment temp`: `splitlines()[3:-1]`. */
  function TemperatureLines(output: string): seq<string> { TableBody(SplitLines(output), 3) }

  /** What `get_environment` makes of the replies to the fan, power and temperature commands. */
  function EnvironmentOf(fanOutput: string, powerOutput: string, tempOutput: string): Environment {
    Environment(
      KeyedFrom(FanLines(fanOutput), map[], FanEntry),
      KeyedFrom(PowerLines(powerOutput), map[], PowerEntry),
      KeyedFrom(TemperatureLines(tempOutput), map[], TemperatureEntry),
      map[], "", "")
  }

  /** The index a status probe finds on line `j`, if any. */
  predicate Finds(probe: string -> Option<(string, string)>, line: string, index: string) {
    probe(line).Some? && probe(line).value.0 == index
  }

  /** A status table holds exactly the indices the probe finds; an index found on several
      lines takes the status of the LAST of them, `true` exactly when the word is `ok`. */
  lemma StatusLastWins(lines: seq<string>, probe: string -> Option<(string, string)>, ok: string)
    ensures var table := KeyedFrom(lines, map[], StatusEntry(probe, ok));
            forall index :: index in table <==> exists j :: 0 <= j < |lines| && Finds(probe, lines[j], index)
    ensures var table := KeyedFrom(lines, map[], StatusEntry(probe, ok));
            forall j :: 0 <= j < |lines| && probe(lines[j]).Some? &&
                        (forall l :: j < l < |lines| ==> !Finds(probe, lines[l], probe(lines[j]).value.0)) ==>
                          probe(lines[j]).value.0 in table &&
                          (table[probe(lines[j]).value.0] <==> probe(lines[j]).value.1 == ok)
  {
    var entry := StatusEntry(probe, ok);
    KeyedLastWins(lines, map[], entry);
    forall j, index | 0 <= j < |lines| ensures Yields(entry, lines[j], index) <==> Finds(probe, lines[j], index) { }
  }

  /** Every temperature entry has `is_alert == is_critical`, and each is set exactly when the
      status column of the sensor's last line is not `Ok`. */
  lemma TemperaturesOf(output: string)
    ensures var temps := KeyedFrom(TemperatureLines(output), map[], TemperatureEntry);
            forall name :: name in temps ==> temps[name].isAlert == temps[name].isCritical
    ensures var lines := TemperatureLines(output);
            var temps := KeyedFrom(lines, map[], TemperatureEntry);
            forall j :: 0 <= j < |lines| && |Tokens(lines[j])| == 4 &&
                        (forall l :: j < l < |lines| ==> !Yields(TemperatureEntry, lines[l], Tokens(lines[j])[0])) ==>
                          Tokens(lines[j])[0] in temps &&
                          temps[Tokens(lines[j])[0]].temperature == Tokens(lines[j])[2] &&
                          (temps[Tokens(lines[j])[0]].isAlert <==> Tokens(lines[j])[1] != "Ok")
    ensures var lines := TemperatureLines(output);
            forall name :: name in KeyedFrom(lines, map[], TemperatureEntry) <==>
                           exists j :: 0 <= j < |lines| && |Tokens(lines[j])| == 4 && Tokens(lines[j])[0] == name
  {
    var lines := TemperatureLines(output);
    KeyedPreserves(lines, map[], TemperatureEntry, (t: Temperature) => t.isAlert == t.isCritical);
    KeyedLastWins(lines, map[], TemperatureEntry);
  }

  // ---------------------------------------------------------------------------
  // get_facts

  /** The facts every reply starts from. */
  const FactsInit: map<string, string> := map["vendor" := "Brocade", "seriel_number" := "xxxxx"]

  /** `^(.*) Version.*: (.*)$`, first group: stored as `model`. */
  function Model(line: string): Option<string> {
    match ModelAndVersion(line) case None => None case Some(mv) => Some(mv.0)
  }

  /** `^(.*) Version.*: (.*)$`, second group: stored as `os_version`. */
  function OsVersion(line: string): Option<string> {
    match ModelAndVersion(line) case None => None case Some(mv) => Some(mv.1)
  }

  /** The probes tried on each line, in the order of the source. */
  const FactProbes: seq<Probe> := [
    Probe("uptime", UpTimeUp),
    Probe("model", Model),
    Probe("os_version", OsVersion),
    Probe("hostname", ManagementIp),
    Probe("fqdn", ManagementIp)
  ]

  /** `show system`: `split('\n')[3:-1]`. */
  function FactLines(output: string): seq<string> { TableBody(SplitNewline(output), 3) }

  /** What `get_facts` makes of the reply. */
  function FactsOf(output: string): map<string, string> { FactsFrom(FactLines(output), FactsInit, FactProbes) }

  /** Without an empty line, the vendor and serial placeholders stay, each probed fact holds
      what its regular expression captures on the LAST line it matches (and is absent when no
      line matches), `hostname` and `fqdn` are the same management address, and there are no
      other keys. */
  lemma FactsFields(output: string)
    requires forall i :: 0 <= i < |FactLines(output)| ==> |FactLines(output)[i]| > 0
    ensures var facts, lines := FactsOf(output), FactLines(output);
            KeyState(facts, "vendor") == Some("Brocade") &&
            KeyState(facts, "seriel_number") == Some("xxxxx") &&
            KeyState(facts, "uptime") == LastMatch(lines, UpTimeUp) &&
            KeyState(facts, "model") == LastMatch(lines, Model) &&
            KeyState(facts, "os_version") == LastMatch(lines, OsVersion) &&
            KeyState(facts, "hostname") == LastMatch(lines, ManagementIp) &&
            KeyState(facts, "fqdn") == LastMatch(lines, ManagementIp)
    ensures forall k :: k in FactsOf(output) ==>
              k in {"vendor", "seriel_number", "uptime", "model", "os_version", "hostname", "fqdn"}
  {
    var lines := FactLines(output);
    assert DistinctKeys(FactProbes);
    FactsOtherKey(lines, FactsInit, FactProbes, "vendor");
    FactsOtherKey(lines, FactsInit, FactProbes, "seriel_number");
    FactsLastMatch(lines, FactsInit, FactProbes, 0);
    FactsLastMatch(lines, FactsInit, FactProbes, 1);
    FactsLastMatch(lines, FactsInit, FactProbes, 2);
    FactsLastMatch(lines, FactsInit, FactProbes, 3);
    FactsLastMatch(lines, FactsInit, FactProbes, 4);
    forall k | k in FactsOf(output)
      ensures k in {"vendor", "seriel_number", "uptime", "model", "os_version", "hostname", "fqdn"}
    {
      if k !in {"vendor", "seriel_number", "uptime", "model", "os_version", "hostname", "fqdn"} {
        FactsOtherKey(lines, FactsInit, FactProbes, k);
      }
    }
  }

  /** An empty line among the facts makes the call return `{}`, placeholders included. */
  lemma FactsBlank(output: string, i: nat)
    requires i < |FactLines(output)| && |FactLines(output)[i]| == 0
    ensures FactsOf(output) == map[]
  {
    FactsBlankLine(FactLines(output), FactsInit, FactProbes, i);
  }

  // ---------------------------------------------------------------------------
  // get_vlan_table

  datatype Vlan = Vlan(vlan: string, name: string)

  /** `vlans[0]` and `vlans[1]`: a row of fewer than two tokens raises IndexError. */
  function VlanRow(t: seq<string>): Result<Vlan> {
    if |t| >= 2 then Ok(Vlan(t[0], t[1])) else Err(IndexError)
  }

  /** `show vlan brief`: `split('\n')[5:-1]`. */
  function VlanLines(output: string): seq<string> { TableBody(SplitNewline(output), 5) }

  /** What `get_vlan_table` makes of the reply; empty lines are skipped. */
  function VlanTableOf(output: string): Result<Table<Vlan>> { Scan(VlanLines(output), VlanRow, SkipBlank) }

  /** A rendered table under five header lines, with empty lines anywhere, lists one entry per
      non-empty row, in order, from its first two columns. */
  lemma VlanOfRendered(header: seq<string>, rows: seq<seq<string>>)
    requires |header| == 5 && forall i :: 0 <= i < 5 ==> '\n' !in header[i]
    requires TokenRows(rows) && forall i :: 0 <= i < |rows| ==> rows[i] == [] || |rows[i]| >= 2
    ensures var r := VlanTableOf(Rendered(header, rows));
            r.Ok? && r.value.Rows? && |r.value.rows| == |NonEmptyRows(rows)| &&
            forall i :: 0 <= i < |NonEmptyRows(rows)| ==>
              |NonEmptyRows(rows)[i]| >= 2 &&
              r.value.rows[i] == Vlan(NonEmptyRows(rows)[i][0], NonEmptyRows(rows)[i][1])
  {
    ScanOfRendered(header, rows, VlanRow, SkipBlank);
  }

  /** The first non-empty line with fewer than two tokens (a line of blanks, say) raises. */
  lemma VlanStop(output: string, i: nat)
    requires var lines := VlanLines(output);
             i < |lines| && |lines[i]| > 0 && |Tokens(lines[i])| < 2 &&
             forall j :: 0 <= j < i ==> |lines[j]| == 0 || |Tokens(lines[j])| >= 2
    ensures VlanTableOf(output) == Err(IndexError)
  {
    ScanStops(VlanLines(output), [], VlanRow, SkipBlank, i);
  }

  // ---------------------------------------------------------------------------
  // get_arp_table

  /** `helpers.mac(raw)`: the address in the library's normal form, kept abstract. */
  datatype Mac = Normalized(raw: string)

  datatype ArpEntry = ArpEntry(interface: string, mac: Mac, ip: string, entryType: string, age: Age)

  /** `address, mac, interface, macresolved, age, typ`: exactly six tokens, or ValueError. */
  function ArpRow(t: seq<string>): Result<ArpEntry> {
    if |t| == 6 then Ok(ArpEntry(t[2], Normalized(t[1]), t[0], t[5], ArpAge(t[4])))
    else Err(UnexpectedOutput(t))
  }

  /** `show arp`: `split('\n')[2:-1]`. */
  function ArpLines(output: string): seq<string> { TableBody(SplitNewline(output), 2) }

  /** What `get_arp_table` makes of the reply. */
  function ArpTableOf(output: string): Result<Table<ArpEntry>> { Scan(ArpLines(output), ArpRow, ReturnEmptyDict) }

  /** A table of six-token rows under two header lines lists one entry per row, in order:
      interface from the third column, address from the first, type from the sixth. */
  lemma ArpOfRendered(header: seq<string>, rows: seq<seq<string>>)
    requires |header| == 2 && forall i :: 0 <= i < 2 ==> '\n' !in header[i]
    requires TokenRows(rows) && forall i :: 0 <= i < |rows| ==> |rows[i]| == 6
    ensures var r := ArpTableOf(Rendered(header, rows));
            r.Ok? && r.value.Rows? && |r.value.rows| == |rows| &&
            forall i :: 0 <= i < |rows| ==>
              r.value.rows[i] == ArpEntry(rows[i][2], Normalized(rows[i][1]), rows[i][0], rows[i][5], ArpAge(rows[i][4]))
  {
    NonEmptyRowsAll(rows);
    ScanOfRendered(header, rows, ArpRow, ReturnEmptyDict);
  }

  /** The first line that is empty or not of six tokens decides the call: `{}` for an empty
      line, dropping the entries already built, and ValueError naming the tokens otherwise. */
  lemma ArpStop(output: string, i: nat)
    requires var lines := ArpLines(output);
             i < |lines| && (|lines[i]| == 0 || |Tokens(lines[i])| != 6) &&
             forall j :: 0 <= j < i ==> |lines[j]| > 0 && |Tokens(lines[j])| == 6
    ensures var lines := ArpLines(output);
            ArpTableOf(output) == if |lines[i]| == 0 then Ok(EmptyDict) else Err(UnexpectedOutput(Tokens(lines[i])))
  {
    ScanStops(ArpLines(output), [], ArpRow, ReturnEmptyDict, i);
  }

  // ---------------------------------------------------------------------------
  // get_mac_address_table

  /** One entry; `moves` is always -1 and `last_move` always 0.0. */
  datatype MacEntry = MacEntry(mac: Mac, interface: string, vlan: int, isStatic: bool, active: bool,
                               moves: int, lastMove: real)

  /** `vlan, mac, typ, state, interface_type, interface`: six tokens, or ValueError; `int(vlan)`
      raises its own ValueError on a column that is not an integer. */
  function MacRow(t: seq<string>): Result<MacEntry> {
    if |t| != 6 then Err(UnexpectedOutput(t))
    else
      match ParseInt(t[0])
      case Err(e) => Err(e)
      case Ok(vlan) => Ok(MacEntry(Normalized(t[1]), t[5], vlan, t[2] == "Static", t[3] != "Inactive", -1, 0.0))
  }

  /** `show mac-address-table`: `splitlines()[1:-1]`. */
  function MacLines(output: string): seq<string> { TableBody(SplitLines(output), 1) }

  /** What `get_mac_address_table` makes of the reply; an empty line raises NameError. */
  function MacTableOf(output: string): Result<Table<MacEntry>> { Scan(MacLines(output), MacRow, RaiseNameError) }

  /** A table of six-token rows with integer VLAN columns, under one header line and above a
      last line, lists one entry per row, in order; the last line printed is never read. */
  lemma MacOfRendered(title: string, rows: seq<seq<string>>, footer: seq<string>)
    requires '\n' !in title && '\r' !in title
    requires TokenRows(rows) && AllTokens(footer)
    requires forall i :: 0 <= i < |rows| ==> |rows[i]| == 6 && IsIntLiteral(rows[i][0])
    ensures var r := MacTableOf(Rendered([title], rows + [footer]));
            r.Ok? && r.value.Rows? && |r.value.rows| == |rows| &&
            forall i :: 0 <= i < |rows| ==>
              var e := r.value.rows[i];
              e.mac == Normalized(rows[i][1]) && e.interface == rows[i][5] &&
              Ok(e.vlan) == ParseInt(rows[i][0]) &&
              (e.isStatic <==> rows[i][2] == "Static") && (e.active <==> rows[i][3] != "Inactive") &&
              e.moves == -1 && e.lastMove == 0.0
  {
    BodyOfRenderedLines([title], rows, footer);
    NonEmptyRowsAll(rows);
    ScanOfRows(rows, MacRow, RaiseNameError);
  }

  /** The first line that is empty or does not make an entry decides the call: NameError for
      an empty line, ValueError for a wrong token count or a VLAN column that is not an integer. */
  lemma MacStop(output: string, i: nat)
    requires var lines := MacLines(output);
             i < |lines| && !Accepted(lines[i], MacRow, RaiseNameError) &&
             forall j :: 0 <= j < i ==> Accepted(lines[j], MacRow, RaiseNameError)
    ensures var lines := MacLines(output);
            MacTableOf(output) ==
              if |lines[i]| == 0 then Err(NameError)
              else if |Tokens(lines[i])| != 6 then Err(UnexpectedOutput(Tokens(lines[i])))
              else Err(InvalidInt(Tokens(lines[i])[0]))
  {
    ScanStops(MacLines(output), [], MacRow, RaiseNameError, i);
  }
}

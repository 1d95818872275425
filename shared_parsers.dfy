/** The two parsers whose code is the same in both drivers: `get_interfaces` over
    `show ip interface brief` and `get_interfaces_counters` over `show interface stats brief`. */
module SharedParsers {
  import opened Outcomes
  import opened PyText
  import opened Tables

  // ---------------------------------------------------------------------------
  // get_interfaces

  /** One interface: `is_up`, `is_enabled`, `interface_type`, `ip_address`. */
  datatype Interface = Interface(isUp: bool, isEnabled: bool, interfaceType: string, ipAddress: string)

  /** A row of 6 tokens (type, name, address, status, status2, protocol) or of 7 with a VRF
      column after the address; any other count raises. */
  function InterfaceRow(t: seq<string>): (r: Result<(string, Interface)>)
    ensures r.Ok? <==> |t| == 6 || |t| == 7
    ensures r.Err? ==> r.error == UnexpectedResponse
    ensures r.Ok? ==> r.value.0 == t[1] && r.value.1.interfaceType == t[0] && r.value.1.ipAddress == t[2]
    ensures r.Ok? ==> (r.value.1.isEnabled <==> !Contains(Lower(t[|t| - 3]), "admin"))
    ensures r.Ok? ==> (r.value.1.isUp <==> Contains(Lower(t[|t| - 1]), "up"))
  {
    if |t| == 6 || |t| == 7 then
      var status, protocol := Lower(t[|t| - 3]), Lower(t[|t| - 1]);
      Ok((t[1], Interface(Contains(protocol, "up"), !Contains(status, "admin"), t[0], t[2])))
    else Err(UnexpectedResponse)
  }

  /** The rest of the loop: `interface_list[interface] = {...}` for every row. */
  function InterfacesFrom(lines: seq<string>, acc: map<string, Interface>): Result<map<string, Interface>>
    decreases |lines|
  {
    if lines == [] then Ok(acc)
    else
      match InterfaceRow(Tokens(lines[0]))
      case Err(e) => Err(e)
      case Ok(kv) => InterfacesFrom(lines[1..], acc[kv.0 := kv.1])
  }

  /** The rows of `show ip interface brief`: `output.split('\n')[3:-1]`. */
  function InterfaceLines(output: string): seq<string> { TableBody(SplitNewline(output), 3) }

  /** What `get_interfaces` makes of the device's reply. */
  function InterfacesOf(output: string): Result<map<string, Interface>> {
    InterfacesFrom(InterfaceLines(output), map[])
  }

  /** The loop of `get_interfaces`, filling a dictionary. */
  method ParseInterfaces(lines: seq<string>) returns (r: Result<map<string, Interface>>)
    ensures r == InterfacesFrom(lines, map[])
  {
    var table: map<string, Interface> := map[];
    for i := 0 to |lines|
      invariant InterfacesFrom(lines[i..], table) == InterfacesFrom(lines, map[])
    {
      assert lines[i..][1..] == lines[i + 1..];
      var fields := Tokens(lines[i]);
      var parsed := InterfaceRow(fields);
      if parsed.Err? {
        return Err(parsed.error);
      }
      table := table[parsed.value.0 := parsed.value.1];
    }
    assert lines[|lines|..] == [];
    return Ok(table);
  }

  /** The entry a line yields when it is a well-formed row. */
  function InterfaceEntry(line: string): Option<(string, Interface)> {
    match InterfaceRow(Tokens(line))
    case Err(_) => None
    case Ok(kv) => Some(kv)
  }

  /** The call raises exactly when some row has neither 6 nor 7 tokens, an empty line included. */
  lemma {:induction false} InterfacesFail(lines: seq<string>, acc: map<string, Interface>)
    ensures InterfacesFrom(lines, acc).Err? <==> exists i :: 0 <= i < |lines| && |Tokens(lines[i])| != 6 && |Tokens(lines[i])| != 7
    ensures InterfacesFrom(lines, acc).Err? ==> InterfacesFrom(lines, acc).error == UnexpectedResponse
    ensures InterfacesFrom(lines, acc).Ok? ==> InterfacesFrom(lines, acc).value == KeyedFrom(lines, acc, InterfaceEntry)
    decreases |lines|
  {
    if lines != [] {
      var parsed := InterfaceRow(Tokens(lines[0]));
      if parsed.Ok? {
        InterfacesFail(lines[1..], acc[parsed.value.0 := parsed.value.1]);
        if exists i :: 0 <= i < |lines| && |Tokens(lines[i])| != 6 && |Tokens(lines[i])| != 7 {
          var i :| 0 <= i < |lines| && |Tokens(lines[i])| != 6 && |Tokens(lines[i])| != 7;
          assert i > 0 && lines[1..][i - 1] == lines[i];
        }
        if exists i :: 0 <= i < |lines[1..]| && |Tokens(lines[1..][i])| != 6 && |Tokens(lines[1..][i])| != 7 {
          var i :| 0 <= i < |lines[1..]| && |Tokens(lines[1..][i])| != 6 && |Tokens(lines[1..][i])| != 7;
          assert lines[1..][i] == lines[i + 1];
        }
      }
    }
  }

  /** The name column of a well-formed row. */
  function InterfaceName(line: string): string
    requires |Tokens(line)| >= 2
  {
    Tokens(line)[1]
  }

  lemma EntryOfRow(line: string)
    requires |Tokens(line)| == 6 || |Tokens(line)| == 7
    ensures InterfaceEntry(line) == Some((InterfaceName(line), InterfaceRow(Tokens(line)).value.1))
    ensures forall k :: Yields(InterfaceEntry, line, k) <==> k == InterfaceName(line)
  {
  }

  /** For well-formed rows, the dictionary is keyed by the second token of each row; a name
      that appears twice takes the record of its LAST row, and there are no other keys. */
  lemma InterfacesLastWins(output: string)
    requires var lines := InterfaceLines(output);
             forall i :: 0 <= i < |lines| ==> |Tokens(lines[i])| == 6 || |Tokens(lines[i])| == 7
    ensures InterfacesOf(output).Ok?
    ensures var lines := InterfaceLines(output);
            forall name :: name in InterfacesOf(output).value <==>
                           exists i :: 0 <= i < |lines| && InterfaceName(lines[i]) == name
    ensures var lines := InterfaceLines(output);
            forall i :: 0 <= i < |lines| && (forall j :: i < j < |lines| ==> InterfaceName(lines[j]) != InterfaceName(lines[i])) ==>
                        InterfaceName(lines[i]) in InterfacesOf(output).value &&
                        InterfacesOf(output).value[InterfaceName(lines[i])] == InterfaceRow(Tokens(lines[i])).value.1
  {
    var lines := InterfaceLines(output);
    InterfacesFail(lines, map[]);
    KeyedLastWins(lines, map[], InterfaceEntry);
    forall i | 0 <= i < |lines| ensures InterfaceEntry(lines[i]) == Some((InterfaceName(lines[i]), InterfaceRow(Tokens(lines[i])).value.1))
      ensures forall k :: Yields(InterfaceEntry, lines[i], k) <==> k == InterfaceName(lines[i])
    {
      EntryOfRow(lines[i]);
    }
  }

  /** An empty line in the table body does not end the table: it has no tokens, so it raises. */
  lemma InterfacesBlankLineRaises(output: string, i: nat)
    requires i < |InterfaceLines(output)| && InterfaceLines(output)[i] == ""
    ensures InterfacesOf(output) == Err(UnexpectedResponse)
  {
    var lines := InterfaceLines(output);
    InterfacesFail(lines, map[]);
    assert Tokens(lines[i]) == [];
  }

  /** Three lines ending in a newline leave no table body after three header lines: even a
      well-formed interface row in third place is consumed by the header skip. */
  lemma InterfacesOfThreeLines(title: string, rule: string, row: string)
    requires '\n' !in title && '\n' !in rule && '\n' !in row
    ensures InterfacesOf(Terminated([title, rule, row])) == Ok(map[])
  {
    SplitTerminated([title, rule, row]);
    assert InterfaceLines(Terminated([title, rule, row])) == [];
  }

  // ---------------------------------------------------------------------------
  // get_interfaces_counters

  /** One counters entry: only `interface_type`, `interface`, `pkts_rx`, `pkts_tx`, as text. */
  datatype Counters = Counters(interfaceType: string, interface: string, pktsRx: string, pktsTx: string)

  /** A row of exactly 9 tokens; the error, receive, discard and CRC columns are dropped. */
  function CountersRow(t: seq<string>): Result<Counters> {
    if |t| == 9 then Ok(Counters(t[0], t[1], t[2], t[3])) else Err(UnexpectedOutput(t))
  }

  /** The rows of `show interface stats brief`: `output.split('\n')[4:-1]`. */
  function CountersLines(output: string): seq<string> { TableBody(SplitNewline(output), 4) }

  /** What `get_interfaces_counters` makes of the device's reply. */
  function CountersOf(output: string): Result<Table<Counters>> {
    Scan(CountersLines(output), CountersRow, ReturnEmptyDict)
  }

  /** The first row that is empty or not of 9 tokens decides the call: `{}` for an empty line,
      dropping the entries already built, and ValueError naming the tokens otherwise. */
  lemma CountersStop(output: string, i: nat)
    requires var lines := CountersLines(output);
             i < |lines| && (|lines[i]| == 0 || |Tokens(lines[i])| != 9) &&
             forall j :: 0 <= j < i ==> |lines[j]| > 0 && |Tokens(lines[j])| == 9
    ensures var lines := CountersLines(output);
            CountersOf(output) == if |lines[i]| == 0 then Ok(EmptyDict) else Err(UnexpectedOutput(Tokens(lines[i])))
  {
    var lines := CountersLines(output);
    ScanStops(lines, [], CountersRow, ReturnEmptyDict, i);
  }

  /** A table of 9-token rows under four header lines gives one entry per row, in order, with
      the first four columns. */
  lemma CountersOfRendered(header: seq<string>, rows: seq<seq<string>>)
    requires |header| == 4 && forall i :: 0 <= i < 4 ==> '\n' !in header[i]
    requires TokenRows(rows) && forall i :: 0 <= i < |rows| ==> |rows[i]| == 9
    ensures var r := CountersOf(Rendered(header, rows));
            r.Ok? && r.value.Rows? && |r.value.rows| == |rows| &&
            forall i :: 0 <= i < |rows| ==> r.value.rows[i] == Counters(rows[i][0], rows[i][1], rows[i][2], rows[i][3])
  {
    NonEmptyRowsAll(rows);
    ScanOfRendered(header, rows, CountersRow, ReturnEmptyDict);
  }

  // ---------------------------------------------------------------------------
  // The age column of `get_arp_table`

  /** The `age` field: `-` becomes 0, a float literal its value, anything else stays the text. */
  datatype Age = ZeroAge | Seconds(literal: string) | Unparsed(token: string)

  /** `age = 0 if age == '-'; float(age)`, keeping the text when `float` raises. */
  function ArpAge(token: string): (a: Age)
    ensures a == ZeroAge <==> token == "-"
    ensures a.Seconds? <==> token != "-" && IsFloatLiteral(token)
    ensures !a.ZeroAge? ==> a == Seconds(token) || a == Unparsed(token)
  {
    if token == "-" then ZeroAge
    else if IsFloatLiteral(token) then Seconds(token)
    else Unparsed(token)
  }
}

/** The driver class of `napalm_brocade`: its connection, `cli`, the getters and the
    configuration lifecycle, each as the commands it sends and what it makes of the replies. */
module Brocade {
  import opened Outcomes
  import opened Tables
  import opened Session
  import opened SharedParsers
  import opened BrocadeParsers

  const FanCommand := "show environment fan"
  const PowerCommand := "show environment power"
  const TemperatureCommand := "show environment temp"
  const CpuCommand := "show process cpu"

  class BrocadeDriver {
    const hostname: string
    const username: string
    const password: string
    const timeout: int
    const port: int

    /** The open connection, `None` until `open` succeeds. */
    var device: Option<Responder>
    /** The commands sent on the current connection, oldest first. */
    var transcript: seq<string>

    /** What the switch prints for `cmd` now. */
    function Answer(cmd: string): string
      reads this
      requires device.Some?
    {
      device.value(transcript, cmd)
    }

    /** `__init__`: no connection yet; the port comes from `optional_args`, 22 by default. */
    constructor(hostname: string, username: string, password: string, timeout: int, optionalPort: Option<int>)
      ensures this.hostname == hostname && this.username == username && this.password == password
      ensures this.timeout == timeout
      ensures port == if optionalPort.Some? then optionalPort.value else 22
      ensures device == None && transcript == []
    {
      this.hostname := hostname;
      this.username := username;
      this.password := password;
      this.timeout := timeout;
      this.port := if optionalPort.Some? then optionalPort.value else 22;
      device := None;
      transcript := [];
    }

    /** `open`: `attempt` is what the transport's connect gives, `None` when it raises; any
        failure becomes ConnectionException naming the host and port. */
    method Open(attempt: Option<Responder>) returns (r: Result<()>)
      modifies this
      ensures attempt.None? ==> r == Err(ConnectionException(hostname, port)) &&
                                device == old(device) && transcript == old(transcript)
      ensures attempt.Some? ==> r == Ok(()) && device == attempt && transcript == []
    {
      if attempt.None? {
        return Err(ConnectionException(hostname, port));
      }
      device := attempt;
      transcript := [];
      return Ok(());
    }

    /** `self.device.send_command(cmd)`: the reply, whatever it says; AttributeError without
        a connection. */
    method Send(cmd: string) returns (r: Result<string>)
      modifies this
      ensures device == old(device)
      ensures old(device).None? ==> r == Err(AttributeError) && transcript == old(transcript)
      ensures old(device).Some? ==> r == Ok(old(Answer(cmd))) && transcript == old(transcript) + [cmd]
    {
      if device.None? {
        return Err(AttributeError);
      }
      r := Ok(device.value(transcript, cmd));
      transcript := transcript + [cmd];
    }

    /** `send_command`: the reply, or ValueError when the switch refused the command. */
    method SendCommand(cmd: string) returns (r: Result<string>)
      modifies this
      ensures device == old(device)
      ensures old(device).None? ==> r == Err(AttributeError) && transcript == old(transcript)
      ensures old(device).Some? ==> transcript == old(transcript) + [cmd] &&
                                    r == if IsRejected(old(Answer(cmd))) then Err(CommandRejected(cmd))
                                         else Ok(old(Answer(cmd)))
    {
      r := Send(cmd);
      if r.Ok? && IsRejected(r.value) {
        r := Err(CommandRejected(cmd));
      }
    }

    /** `cli`: anything but a list (subclasses included) raises TypeError; otherwise the
        commands are sent in order until one is refused. */
    method Cli(commands: CommandsArg) returns (r: Result<map<string, string>>)
      modifies this
      ensures device == old(device)
      ensures commands.NotAList? ==> r == Err(TypeError) && transcript == old(transcript)
      ensures !commands.NotAList? && old(device).None? ==>
                transcript == old(transcript) &&
                r == if commands.items == [] then Ok(map[]) else Err(AttributeError)
      ensures !commands.NotAList? && old(device).Some? ==>
                r == CliResult(old(device).value, old(transcript), commands.items) &&
                transcript == old(transcript) + CliSent(old(device).value, old(transcript), commands.items)
    {
      if commands.NotAList? {
        return Err(TypeError);
      }
      var cmds := commands.items;
      ghost var before := transcript;
      var outputs: map<string, string> := map[];
      for i := 0 to |cmds|
        invariant device == old(device)
        invariant transcript == before + cmds[..i]
        invariant device.None? ==> i == 0 && outputs == map[]
        invariant device.Some? ==> outputs == CliOutputs(device.value, before, cmds[..i])
        invariant device.Some? ==> forall j :: 0 <= j < i ==> !IsRejected(device.value(before + cmds[..j], cmds[j]))
      {
        var output := Send(cmds[i]);
        if output.Err? {
          return Err(output.error);
        }
        assert cmds[..i + 1] == cmds[..i] + [cmds[i]];
        if IsRejected(output.value) {
          CliStopsAt(device.value, before, cmds, i);
          return Err(CommandRejected(cmds[i]));
        }
        CliOutputsStep(device.value, before, cmds, i);
        outputs := outputs[cmds[i] := output.value];
      }
      assert cmds[..|cmds|] == cmds;
      if device.Some? {
        CliCompletes(device.value, before, cmds);
      }
      return Ok(outputs);
    }

    /** `get_environment`: fans, power supplies and temperature sensors from three commands;
        a fourth, `show process cpu`, is sent and its reply not used. */
    method GetEnvironment() returns (r: Result<Environment>)
      modifies this
      ensures device == old(device)
      ensures old(device).None? ==> r == Err(AttributeError) && transcript == old(transcript)
      ensures old(device).Some? ==>
                var dev, t := old(device).value, old(transcript);
                transcript == t + [FanCommand, PowerCommand, TemperatureCommand, CpuCommand] &&
                r == Ok(EnvironmentOf(dev(t, FanCommand), dev(t + [FanCommand], PowerCommand),
                                      dev(t + [FanCommand, PowerCommand], TemperatureCommand)))
    {
      ghost var t := transcript;
      var fanOutput := Send(FanCommand);
      if fanOutput.Err? {
        return Err(fanOutput.error);
      }
      ghost var dev := device.value;
      var fans := KeyedTable(FanLines(fanOutput.value), FanEntry);
      var powerOutput := Send(PowerCommand);
      assert powerOutput.value == dev(t + [FanCommand], PowerCommand);
      var power := KeyedTable(PowerLines(powerOutput.value), PowerEntry);
      var tempOutput := Send(TemperatureCommand);
      assert t + [FanCommand] + [PowerCommand] == t + [FanCommand, PowerCommand];
      assert tempOutput.value == dev(t + [FanCommand, PowerCommand], TemperatureCommand);
      var temps := KeyedTable(TemperatureLines(tempOutput.value), TemperatureEntry);
      var cpuOutput := Send(CpuCommand);
      assert transcript == t + [FanCommand, PowerCommand, TemperatureCommand, CpuCommand];
      return Ok(Environment(fans, power, temps, map[], "", ""));
    }

    /** `get_facts`: `show system`, probed line by line. */
    method GetFacts() returns (r: Result<map<string, string>>)
      modifies this
      ensures device == old(device)
      ensures old(device).None? ==> r == Err(AttributeError) && transcript == old(transcript)
      ensures old(device).Some? ==> transcript == old(transcript) + ["show system"] &&
                                    r == Ok(FactsOf(old(Answer("show system"))))
    {
      var output := Send("show system");
      if output.Err? {
        return Err(output.error);
      }
      var facts := FactTable(FactLines(output.value), FactsInit, FactProbes);
      return Ok(facts);
    }

    /** `get_vlan_table`: `show vlan brief`. */
    method GetVlanTable() returns (r: Result<Table<Vlan>>)
      modifies this
      ensures device == old(device)
      ensures old(device).None? ==> r == Err(AttributeError) && transcript == old(transcript)
      ensures old(device).Some? ==> transcript == old(transcript) + ["show vlan brief"] &&
                                    r == VlanTableOf(old(Answer("show vlan brief")))
    {
      var output := Send("show vlan brief");
      if output.Err? {
        return Err(output.error);
      }
      r := ScanTable(VlanLines(output.value), VlanRow, SkipBlank);
    }

    /** `get_arp_table`: `show arp`. */
    method GetArpTable() returns (r: Result<Table<ArpEntry>>)
      modifies this
      ensures device == old(device)
      ensures old(device).None? ==> r == Err(AttributeError) && transcript == old(transcript)
      ensures old(device).Some? ==> transcript == old(transcript) + ["show arp"] &&
                                    r == ArpTableOf(old(Answer("show arp")))
    {
      var output := Send("show arp");
      if output.Err? {
        return Err(output.error);
      }
      r := ScanTable(ArpLines(output.value), ArpRow, ReturnEmptyDict);
    }

    /** `get_interfaces` (the second definition, which replaces the first): `show ip interface brief`. */
    method GetInterfaces() returns (r: Result<map<string, Interface>>)
      modifies this
      ensures device == old(device)
      ensures old(device).None? ==> r == Err(AttributeError) && transcript == old(transcript)
      ensures old(device).Some? ==> transcript == old(transcript) + ["show ip interface brief"] &&
                                    r == InterfacesOf(old(Answer("show ip interface brief")))
    {
      var output := Send("show ip interface brief");
      if output.Err? {
        return Err(output.error);
      }
      r := ParseInterfaces(InterfaceLines(output.value));
    }

    /** `get_interfaces_counters`: `show interface stats brief`. */
    method GetInterfacesCounters() returns (r: Result<Table<Counters>>)
      modifies this
      ensures device == old(device)
      ensures old(device).None? ==> r == Err(AttributeError) && transcript == old(transcript)
      ensures old(device).Some? ==> transcript == old(transcript) + ["show interface stats brief"] &&
                                    r == CountersOf(old(Answer("show interface stats brief")))
    {
      var output := Send("show interface stats brief");
      if output.Err? {
        return Err(output.error);
      }
      r := ScanTable(CountersLines(output.value), CountersRow, ReturnEmptyDict);
    }

    /** `get_mac_address_table`: `show mac-address-table`. */
    method GetMacAddressTable() returns (r: Result<Table<MacEntry>>)
      modifies this
      ensures device == old(device)
      ensures old(device).None? ==> r == Err(AttributeError) && transcript == old(transcript)
      ensures old(device).Some? ==> transcript == old(transcript) + ["show mac-address-table"] &&
                                    r == MacTableOf(old(Answer("show mac-address-table")))
    {
      var output := Send("show mac-address-table");
      if output.Err? {
        return Err(output.error);
      }
      r := ScanTable(MacLines(output.value), MacRow, RaiseNameError);
    }

    // -------------------------------------------------------------------------
    // Configuration lifecycle: replies are not looked at, and nothing is returned

    /** Sends `cmds` in order; AttributeError, with nothing sent, without a connection. */
    method SendAll(cmds: seq<string>) returns (r: Result<()>)
      modifies this
      ensures device == old(device)
      ensures old(device).None? && cmds != [] ==> r == Err(AttributeError) && transcript == old(transcript)
      ensures old(device).Some? || cmds == [] ==> r == Ok(()) && transcript == old(transcript) + cmds
    {
      for i := 0 to |cmds|
        invariant device == old(device)
        invariant transcript == old(transcript) + cmds[..i]
        invariant device.None? ==> i == 0
      {
        var output := Send(cmds[i]);
        if output.Err? {
          return Err(output.error);
        }
        assert cmds[..i + 1] == cmds[..i] + [cmds[i]];
      }
      assert cmds[..|cmds|] == cmds;
      return Ok(());
    }

    /** `reboot`: one command that also answers the confirmation prompt. */
    method Reboot() returns (r: Result<()>)
      modifies this
      ensures device == old(device)
      ensures old(device).None? ==> r == Err(AttributeError) && transcript == old(transcript)
      ensures old(device).Some? ==> r == Ok(()) && transcript == old(transcript) + [Reload]
    {
      r := SendAll([Reload]);
    }

    /** `commit_config`: copy the candidate over the running configuration. */
    method CommitConfig() returns (r: Result<()>)
      modifies this
      ensures device == old(device)
      ensures old(device).None? ==> r == Err(AttributeError) && transcript == old(transcript)
      ensures old(device).Some? ==> r == Ok(()) && transcript == old(transcript) + [CommitCandidate]
    {
      r := SendAll([CommitCandidate]);
    }

    /** `_checkpoint_running_config`: remove the old checkpoint, then save the running one. */
    method CheckpointRunningConfig() returns (r: Result<()>)
      modifies this
      ensures device == old(device)
      ensures old(device).None? ==> r == Err(AttributeError) && transcript == old(transcript)
      ensures old(device).Some? ==> r == Ok(()) && transcript == old(transcript) + [RemoveRunning, SaveRunning]
    {
      r := SendAll([RemoveRunning, SaveRunning]);
    }

    /** `_checkpoint_startup_config`: remove the old checkpoint, then save the startup one. */
    method CheckpointStartupConfig() returns (r: Result<()>)
      modifies this
      ensures device == old(device)
      ensures old(device).None? ==> r == Err(AttributeError) && transcript == old(transcript)
      ensures old(device).Some? ==> r == Ok(()) && transcript == old(transcript) + [RemoveStartup, SaveStartup]
    {
      r := SendAll([RemoveStartup, SaveStartup]);
    }

    /** `load_replace_candidate` and `load_merge_candidate`, which do the same: copy the file
        into `$HOME/tmp` (`localCopy` says whether that succeeds), remove the old candidate,
        then have the switch fetch the file as the new one. */
    method LoadCandidate(filename: string, localCopy: bool) returns (r: Result<()>)
      modifies this
      ensures device == old(device)
      ensures !localCopy ==> r == Err(LocalCopyFailed) && transcript == old(transcript)
      ensures localCopy && old(device).None? ==> r == Err(AttributeError) && transcript == old(transcript)
      ensures localCopy && old(device).Some? ==>
                r == Ok(()) && transcript == old(transcript) + [RemoveCandidate, FetchCandidate(filename)]
    {
      if !localCopy {
        return Err(LocalCopyFailed);
      }
      r := SendAll([RemoveCandidate, FetchCandidate(filename)]);
    }

    /** `rollback_config`: restore the running checkpoint, then reboot. */
    method RollbackConfig() returns (r: Result<()>)
      modifies this
      ensures device == old(device)
      ensures old(device).None? ==> r == Err(AttributeError) && transcript == old(transcript)
      ensures old(device).Some? ==> r == Ok(()) && transcript == old(transcript) + [RestoreRunning, Reload]
    {
      r := SendAll([RestoreRunning]);
      if r.Err? {
        return;
      }
      r := Reboot();
    }

    /** `compare_config`: the diff is sent and its reply dropped; the call returns nothing. */
    method CompareConfig() returns (r: Result<()>)
      modifies this
      ensures device == old(device)
      ensures old(device).None? ==> r == Err(AttributeError) && transcript == old(transcript)
      ensures old(device).Some? ==> r == Ok(()) && transcript == old(transcript) + [DiffCandidate]
    {
      r := SendAll([DiffCandidate]);
    }

    /** `discard_config`: remove the candidate. */
    method DiscardConfig() returns (r: Result<()>)
      modifies this
      ensures device == old(device)
      ensures old(device).None? ==> r == Err(AttributeError) && transcript == old(transcript)
      ensures old(device).Some? ==> r == Ok(()) && transcript == old(transcript) + [RemoveCandidate]
    {
      r := SendAll([RemoveCandidate]);
    }
  }
}

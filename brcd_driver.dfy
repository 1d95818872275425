/** The driver class of `napalm_brcd`: its connection, `cli`, the getters and the
    configuration lifecycle, each as the commands it sends and what it makes of the replies. */
module Brcd {
  import opened Outcomes
  import opened Tables
  import opened Session
  import opened SharedParsers
  import opened BrcdParsers

  class BrcdDriver {
    const hostname: string
    const username: string
    const password: string
    const timeout: int
    const port: int

    /** The open connection, `None` until `open` succeeds (the attribute does not exist before). */
    var device: Option<Responder>
    /** The commands sent on the current connection, oldest first. */
    var transcript: seq<string>

    /** What the switch prints for `cmd` now. */
    function Answer(cmd: string): string
      reads this
      requires device.Some?
    {
      device.value(transcript, cmd)
    }

    /** `__init__`: no connection yet; the port comes from `optional_args`, 22 by default. */
    constructor(hostname: string, username: string, password: string, timeout: int, optionalPort: Option<int>)
      ensures this.hostname == hostname && this.username == username && this.password == password
      ensures this.timeout == timeout
      ensures port == if optionalPort.Some? then optionalPort.value else 22
      ensures device == None && transcript == []
    {
      this.hostname := hostname;
      this.username := username;
      this.password := password;
      this.timeout := timeout;
      this.port := if optionalPort.Some? then optionalPort.value else 22;
      device := None;
      transcript := [];
    }

    /** `open`: `attempt` is what the transport's connect gives, `None` when it raises; the
        transport's exception goes to the caller as it is. */
    method Open(attempt: Option<Responder>) returns (r: Result<()>)
      modifies this
      ensures attempt.None? ==> r == Err(ConnectFailed) &&
                                device == old(device) && transcript == old(transcript)
      ensures attempt.Some? ==> r == Ok(()) && device == attempt && transcript == []
    {
      if attempt.None? {
        return Err(ConnectFailed);
      }
      device := attempt;
      transcript := [];
      return Ok(());
    }

    /** `self.device.send_command(cmd)`: the reply, whatever it says; AttributeError without
        a connection. */
    method Send(cmd: string) returns (r: Result<string>)
      modifies this
      ensures device == old(device)
      ensures old(device).None? ==> r == Err(AttributeError) && transcript == old(transcript)
      ensures old(device).Some? ==> r == Ok(old(Answer(cmd))) && transcript == old(transcript) + [cmd]
    {
      if device.None? {
        return Err(AttributeError);
      }
      r := Ok(device.value(transcript, cmd));
      transcript := transcript + [cmd];
    }

    /** `send_command`: the reply, or ValueError when the switch refused the command. */
    method SendCommand(cmd: string) returns (r: Result<string>)
      modifies this
      ensures device == old(device)
      ensures old(device).None? ==> r == Err(AttributeError) && transcript == old(transcript)
      ensures old(device).Some? ==> transcript == old(transcript) + [cmd] &&
                                    r == if IsRejected(old(Answer(cmd))) then Err(CommandRejected(cmd))
                                         else Ok(old(Answer(cmd)))
    {
      r := Send(cmd);
      if r.Ok? && IsRejected(r.value) {
        r := Err(CommandRejected(cmd));
      }
    }

    /** `cli`: anything whose type is not exactly `list` (a subclass of it included) raises
        TypeError; otherwise the commands are sent in order until one is refused. */
    method Cli(commands: CommandsArg) returns (r: Result<map<string, string>>)
      modifies this
      ensures device == old(device)
      ensures !commands.PyList? ==> r == Err(TypeError) && transcript == old(transcript)
      ensures commands.PyList? && old(device).None? ==>
                transcript == old(transcript) &&
                r == if commands.items == [] then Ok(map[]) else Err(AttributeError)
      ensures commands.PyList? && old(device).Some? ==>
                r == CliResult(old(device).value, old(transcript), commands.items) &&
                transcript == old(transcript) + CliSent(old(device).value, old(transcript), commands.items)
    {
      if !commands.PyList? {
        return Err(TypeError);
      }
      var cmds := commands.items;
      ghost var before := transcript;
      var outputs: map<string, string> := map[];
      for i := 0 to |cmds|
        invariant device == old(device)
        invariant transcript == before + cmds[..i]
        invariant device.None? ==> i == 0 && outputs == map[]
        invariant device.Some? ==> outputs == CliOutputs(device.value, before, cmds[..i])
        invariant device.Some? ==> forall j :: 0 <= j < i ==> !IsRejected(device.value(before + cmds[..j], cmds[j]))
      {
        var output := Send(cmds[i]);
        if output.Err? {
          return Err(output.error);
        }
        assert cmds[..i + 1] == cmds[..i] + [cmds[i]];
        if IsRejected(output.value) {
          CliStopsAt(device.value, before, cmds, i);
          return Err(CommandRejected(cmds[i]));
        }
        CliOutputsStep(device.value, before, cmds, i);
        outputs := outputs[cmds[i] := output.value];
      }
      assert cmds[..|cmds|] == cmds;
      if device.Some? {
        CliCompletes(device.value, before, cmds);
      }
      return Ok(outputs);
    }

    /** `get_environment`: the one-minute CPU load from `show proc cpu`; every other sensor
        is a placeholder. */
    method GetEnvironment() returns (r: Result<Environment>)
      modifies this
      ensures device == old(device)
      ensures old(device).None? ==> r == Err(AttributeError) && transcript == old(transcript)
      ensures old(device).Some? ==> transcript == old(transcript) + ["show proc cpu"] &&
                                    r == EnvironmentOf(old(Answer("show proc cpu")))
    {
      var output := Send("show proc cpu");
      if output.Err? {
        return Err(output.error);
      }
      var load := ReadCpuLoad(CpuLines(output.value));
      if load.Err? {
        return Err(load.error);
      }
      return Ok(EnvironmentWith(load.value));
    }

    /** `get_facts`: `show system`, probed line by line. */
    method GetFacts() returns (r: Result<map<string, string>>)
      modifies this
      ensures device == old(device)
      ensures old(device).None? ==> r == Err(AttributeError) && transcript == old(transcript)
      ensures old(device).Some? ==> transcript == old(transcript) + ["show system"] &&
                                    r == Ok(FactsOf(old(Answer("show system"))))
    {
      var output := Send("show system");
      if output.Err? {
        return Err(output.error);
      }
      var facts := FactTable(FactLines(output.value), map[], FactProbes);
      return Ok(facts);
    }

    /** `get_arp_table`: `show arp`. */
    method GetArpTable() returns (r: Result<Table<ArpEntry>>)
      modifies this
      ensures device == old(device)
      ensures old(device).None? ==> r == Err(AttributeError) && transcript == old(transcript)
      ensures old(device).Some? ==> transcript == old(transcript) + ["show arp"] &&
                                    r == ArpTableOf(old(Answer("show arp")))
    {
      var output := Send("show arp");
      if output.Err? {
        return Err(output.error);
      }
      r := ScanTable(ArpLines(output.value), ArpRow, ReturnEmptyDict);
    }

    /** `get_interfaces`: `show ip interface brief`. */
    method GetInterfaces() returns (r: Result<map<string, Interface>>)
      modifies this
      ensures device == old(device)
      ensures old(device).None? ==> r == Err(AttributeError) && transcript == old(transcript)
      ensures old(device).Some? ==> transcript == old(transcript) + ["show ip interface brief"] &&
                                    r == InterfacesOf(old(Answer("show ip interface brief")))
    {
      var output := Send("show ip interface brief");
      if output.Err? {
        return Err(output.error);
      }
      r := ParseInterfaces(InterfaceLines(output.value));
    }

    /** `get_interfaces_counters`: `show interface stats brief`. */
    method GetInterfacesCounters() returns (r: Result<Table<Counters>>)
      modifies this
      ensures device == old(device)
      ensures old(device).None? ==> r == Err(AttributeError) && transcript == old(transcript)
      ensures old(device).Some? ==> transcript == old(transcript) + ["show interface stats brief"] &&
                                    r == CountersOf(old(Answer("show interface stats brief")))
    {
      var output := Send("show interface stats brief");
      if output.Err? {
        return Err(output.error);
      }
      r := ScanTable(CountersLines(output.value), CountersRow, ReturnEmptyDict);
    }

    /** `get_mac_address_table`: the command is sent and the reply dropped; the table is
        always empty. */
    method GetMacAddressTable() returns (r: Result<seq<string>>)
      modifies this
      ensures device == old(device)
      ensures old(device).None? ==> r == Err(AttributeError) && transcript == old(transcript)
      ensures old(device).Some? ==> transcript == old(transcript) + ["show mac-address-table"] && r == Ok([])
    {
      var output := Send("show mac-address-table");
      if output.Err? {
        return Err(output.error);
      }
      return Ok([]);
    }

    // -------------------------------------------------------------------------
    // Configuration lifecycle: replies are not checked; some are returned

    /** Sends `cmds` in order; AttributeError, with nothing sent, without a connection. */
    method SendAll(cmds: seq<string>) returns (r: Result<()>)
      modifies this
      ensures device == old(device)
      ensures old(device).None? && cmds != [] ==> r == Err(AttributeError) && transcript == old(transcript)
      ensures old(device).Some? || cmds == [] ==> r == Ok(()) && transcript == old(transcript) + cmds
    {
      for i := 0 to |cmds|
        invariant device == old(device)
        invariant transcript == old(transcript) + cmds[..i]
        invariant device.None? ==> i == 0
      {
        var output := Send(cmds[i]);
        if output.Err? {
          return Err(output.error);
        }
        assert cmds[..i + 1] == cmds[..i] + [cmds[i]];
      }
      assert cmds[..|cmds|] == cmds;
      return Ok(());
    }

    /** `reboot`: one command that also answers the confirmation prompt. */
    method Reboot() returns (r: Result<()>)
      modifies this
      ensures device == old(device)
      ensures old(device).None? ==> r == Err(AttributeError) && transcript == old(transcript)
      ensures old(device).Some? ==> r == Ok(()) && transcript == old(transcript) + [Reload]
    {
      r := SendAll([Reload]);
    }

    /** `commit_config`: copy the candidate over the running configuration. */
    method CommitConfig() returns (r: Result<()>)
      modifies this
      ensures device == old(device)
      ensures old(device).None? ==> r == Err(AttributeError) && transcript == old(transcript)
      ensures old(device).Some? ==> r == Ok(()) && transcript == old(transcript) + [CommitCandidate]
    {
      r := SendAll([CommitCandidate]);
    }

    /** `_checkpoint_running_config`: remove the old checkpoint, save the running one, and
        return the reply to the save. */
    method CheckpointRunningConfig() returns (r: Result<string>)
      modifies this
      ensures device == old(device)
      ensures old(device).None? ==> r == Err(AttributeError) && transcript == old(transcript)
      ensures old(device).Some? ==>
                transcript == old(transcript) + [RemoveRunning, SaveRunning] &&
                r == Ok(old(device).value(old(transcript) + [RemoveRunning], SaveRunning))
    {
      var removed := Send(RemoveRunning);
      if removed.Err? {
        return Err(removed.error);
      }
      r := Send(SaveRunning);
    }

    /** `_checkpoint_startup_config`: remove the old checkpoint, save the startup one, and
        return the reply to the save. */
    method CheckpointStartupConfig() returns (r: Result<string>)
      modifies this
      ensures device == old(device)
      ensures old(device).None? ==> r == Err(AttributeError) && transcript == old(transcript)
      ensures old(device).Some? ==>
                transcript == old(transcript) + [RemoveStartup, SaveStartup] &&
                r == Ok(old(device).value(old(transcript) + [RemoveStartup], SaveStartup))
    {
      var removed := Send(RemoveStartup);
      if removed.Err? {
        return Err(removed.error);
      }
      r := Send(SaveStartup);
    }

    /** `load_replace_candidate` and `load_merge_candidate`, which do the same: copy the file
        into `$HOME/tmp` (`localCopy` says whether that succeeds), remove the old candidate,
        then have the switch fetch the file as the new one. */
    method LoadCandidate(filename: string, localCopy: bool) returns (r: Result<()>)
      modifies this
      ensures device == old(device)
      ensures !localCopy ==> r == Err(LocalCopyFailed) && transcript == old(transcript)
      ensures localCopy && old(device).None? ==> r == Err(AttributeError) && transcript == old(transcript)
      ensures localCopy && old(device).Some? ==>
                r == Ok(()) && transcript == old(transcript) + [RemoveCandidate, FetchCandidate(filename)]
    {
      if !localCopy {
        return Err(LocalCopyFailed);
      }
      r := SendAll([RemoveCandidate, FetchCandidate(filename)]);
    }

    /** `rollback_config`: restore the running checkpoint, reboot, and return the reply to
        the restore. */
    method RollbackConfig() returns (r: Result<string>)
      modifies this
      ensures device == old(device)
      ensures old(device).None? ==> r == Err(AttributeError) && transcript == old(transcript)
      ensures old(device).Some? ==> transcript == old(transcript) + [RestoreRunning, Reload] &&
                                    r == Ok(old(Answer(RestoreRunning)))
    {
      r := Send(RestoreRunning);
      if r.Err? {
        return;
      }
      var rebooted := Reboot();
    }

    /** `compare_config`: the reply to the diff of the running checkpoint and the candidate. */
    method CompareConfig() returns (r: Result<string>)
      modifies this
      ensures device == old(device)
      ensures old(device).None? ==> r == Err(AttributeError) && transcript == old(transcript)
      ensures old(device).Some? ==> transcript == old(transcript) + [DiffCandidate] &&
                                    r == Ok(old(Answer(DiffCandidate)))
    {
      r := Send(DiffCandidate);
    }

    /** `discard_config`: remove the candidate. */
    method DiscardConfig() returns (r: Result<()>)
      modifies this
      ensures device == old(device)
      ensures old(device).None? ==> r == Err(AttributeError) && transcript == old(transcript)
      ensures old(device).Some? ==> r == Ok(()) && transcript == old(transcript) + [RemoveCandidate]
    {
      r := SendAll([RemoveCandidate]);
    }
  }
}

/** The connection both drivers talk through, and what `cli` does with a list of commands.

    The switch is a `Responder`: the text it prints for a command, given the commands sent
    before it on the same connection. The drivers send a command and read back that text. */
module Session {
  import opened Outcomes
  import opened PyText

  type Responder = (seq<string>, string) -> string

  /** A reply holding `Invalid input detected`: the switch refused the command. */
  predicate IsRejected(output: string) { Contains(output, "Invalid input detected") }

  /** The `commands` argument of `cli`, by the only thing the drivers look at: its type. */
  datatype CommandsArg =
    | PyList(items: seq<string>)           // a `list`
    | PyListSubclass(items: seq<string>)   // an instance of a subclass of `list`
    | NotAList                             // anything else, `None` (the default) included

  // ---------------------------------------------------------------------------
  // Commands the lifecycle operations send (the same text in both drivers)

  const Reload := "reload system\ny\n"
  const CommitCandidate := "copy flash://_candidate.cfg running-config"
  const RemoveRunning := "oscmd rm /var/config/vcs/scripts/_running.cfg"
  const SaveRunning := "copy running-config flash://_running.cfg"
  const RemoveStartup := "oscmd rm /var/config/vcs/scripts/_startup.cfg"
  const SaveStartup := "copy startup-config flash://_startup.cfg"
  const RemoveCandidate := "oscmd rm /var/config/vcs/scripts/_candidate.cfg"
  const RestoreRunning := "copy flash://_running.cfg running_config"
  const DiffCandidate := "oscmd diff /var/config/vcs/scripts/_running.cfg /var/config/vcs/scripts/_candidate.cfg"

  /** `"copy scp://%s:%s@%s/tmp/%s flash://_candidate.cfg" % (EXPORT_USER, EXPORT_PASSWORD,
      EXPORT_HOST, filename)`, with the user `shh`, the password `ss` and the host 10.24.88.6. */
  const FetchPrefix := "copy scp://shh:ss@10.24.88.6/tmp/"
  const FetchSuffix := " flash://_candidate.cfg"

  function FetchCandidate(filename: string): string { FetchPrefix + filename + FetchSuffix }

  /** The file name back out of a fetch command. */
  function FetchedFile(command: string): Option<string> {
    if |FetchPrefix| + |FetchSuffix| <= |command| && StartsWith(command, FetchPrefix) &&
       command[|command| - |FetchSuffix|..] == FetchSuffix
    then Some(command[|FetchPrefix|..|command| - |FetchSuffix|])
    else None
  }

  /** The fetch command gives back the file name it was built from. */
  lemma FetchRoundTrip(filename: string)
    ensures FetchedFile(FetchCandidate(filename)) == Some(filename)
  {
    var c := FetchCandidate(filename);
    assert c[..|FetchPrefix|] == FetchPrefix;
    assert c[|c| - |FetchSuffix|..] == FetchSuffix;
    assert c[|FetchPrefix|..|c| - |FetchSuffix|] == filename;
  }

  // ---------------------------------------------------------------------------
  // cli

  /** The first command from `i` on whose reply the switch refused, or `|cmds|`. */
  function FirstRejectedFrom(dev: Responder, before: seq<string>, cmds: seq<string>, i: nat): (k: nat)
    requires i <= |cmds|
    ensures i <= k <= |cmds|
    ensures forall j :: i <= j < k ==> !IsRejected(dev(before + cmds[..j], cmds[j]))
    ensures k < |cmds| ==> IsRejected(dev(before + cmds[..k], cmds[k]))
    decreases |cmds| - i
  {
    if i == |cmds| then |cmds|
    else if IsRejected(dev(before + cmds[..i], cmds[i])) then i
    else FirstRejectedFrom(dev, before, cmds, i + 1)
  }

  function FirstRejected(dev: Responder, before: seq<string>, cmds: seq<string>): nat {
    FirstRejectedFrom(dev, before, cmds, 0)
  }

  /** `cli_output[command] = output` for every command, in order. */
  function CliOutputs(dev: Responder, before: seq<string>, cmds: seq<string>): map<string, string>
    decreases |cmds|
  {
    if cmds == [] then map[]
    else
      var n := |cmds| - 1;
      CliOutputs(dev, before, cmds[..n])[cmds[n] := dev(before + cmds[..n], cmds[n])]
  }

  /** What `cli` returns: the outputs by command, or the first refusal. */
  function CliResult(dev: Responder, before: seq<string>, cmds: seq<string>): Result<map<string, string>> {
    var k := FirstRejected(dev, before, cmds);
    if k < |cmds| then Err(CommandRejected(cmds[k])) else Ok(CliOutputs(dev, before, cmds))
  }

  /** The commands `cli` sends: all of them, or those up to and including the refused one. */
  function CliSent(dev: Responder, before: seq<string>, cmds: seq<string>): seq<string> {
    var k := FirstRejected(dev, before, cmds);
    if k < |cmds| then cmds[..k + 1] else cmds
  }

  /** One more command adds its reply under its own name. */
  lemma CliOutputsStep(dev: Responder, before: seq<string>, cmds: seq<string>, i: nat)
    requires i < |cmds|
    ensures CliOutputs(dev, before, cmds[..i + 1])
         == CliOutputs(dev, before, cmds[..i])[cmds[i] := dev(before + cmds[..i], cmds[i])]
  {
    assert cmds[..i + 1][..i] == cmds[..i];
  }

  /** `cli` stops at command `i` when it is the first one refused. */
  lemma CliStopsAt(dev: Responder, before: seq<string>, cmds: seq<string>, i: nat)
    requires i < |cmds| && IsRejected(dev(before + cmds[..i], cmds[i]))
    requires forall j :: 0 <= j < i ==> !IsRejected(dev(before + cmds[..j], cmds[j]))
    ensures CliResult(dev, before, cmds) == Err(CommandRejected(cmds[i]))
    ensures CliSent(dev, before, cmds) == cmds[..i + 1]
  {
  }

  /** `cli` answers with every reply when no command is refused. */
  lemma CliCompletes(dev: Responder, before: seq<string>, cmds: seq<string>)
    requires forall j :: 0 <= j < |cmds| ==> !IsRejected(dev(before + cmds[..j], cmds[j]))
    ensures CliResult(dev, before, cmds) == Ok(CliOutputs(dev, before, cmds))
    ensures CliSent(dev, before, cmds) == cmds
  {
  }

  /** The dictionary has one key per distinct command; a command given twice holds the reply
      to its LAST occurrence, sent after every command before it. */
  lemma {:induction false} CliOutputsLastWins(dev: Responder, before: seq<string>, cmds: seq<string>)
    ensures CliOutputs(dev, before, cmds).Keys == set c | c in cmds
    ensures forall i :: 0 <= i < |cmds| && (forall j :: i < j < |cmds| ==> cmds[j] != cmds[i]) ==>
                        CliOutputs(dev, before, cmds)[cmds[i]] == dev(before + cmds[..i], cmds[i])
    decreases |cmds|
  {
    if cmds != [] {
      var n := |cmds| - 1;
      var init := cmds[..n];
      CliOutputsLastWins(dev, before, init);
      assert cmds == init + [cmds[n]];
      forall i | 0 <= i < n ensures init[..i] == cmds[..i] && init[i] == cmds[i] { }
    }
  }

  /** `cli` fails exactly when the switch refuses one of the commands, naming the first such
      command; it has then sent the commands up to and including that one, and all of them
      otherwise. */
  lemma CliRejects(dev: Responder, before: seq<string>, cmds: seq<string>)
    ensures CliResult(dev, before, cmds).Err? <==>
            exists i :: 0 <= i < |cmds| && IsRejected(dev(before + cmds[..i], cmds[i]))
    ensures var k := FirstRejected(dev, before, cmds);
            CliResult(dev, before, cmds).Err? ==>
              k < |cmds| && CliResult(dev, before, cmds).error == CommandRejected(cmds[k]) &&
              CliSent(dev, before, cmds) == cmds[..k + 1] &&
              IsRejected(dev(before + cmds[..k], cmds[k])) &&
              forall j :: 0 <= j < k ==> !IsRejected(dev(before + cmds[..j], cmds[j]))
    ensures CliResult(dev, before, cmds).Ok? ==> CliSent(dev, before, cmds) == cmds
  {
  }
}

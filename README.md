# NAPALM drivers for Brocade switches, modelled in Dafny

The repository has two NAPALM drivers for Brocade NOS/SLX switches:

- `BrocadeDriver` in `napalm_brocade/brocade.py`.
- `BrcdDriver` in `napalm_brcd/brcd.py`.

Each driver opens an SSH command session (netmiko's `ConnectHandler`) and sends CLI text commands. It parses the printed tables into NAPALM dictionaries and lists. It also drives the configuration lifecycle as fixed command sequences: checkpoint, load candidate, compare, commit, discard, rollback and reboot.

The model covers:

- Connection:
  - the switch is a `Session.Responder`, a function from (commands sent so far, command) to the printed reply;
  - each driver is a class whose `device` is `None` until `open` succeeds, and whose `transcript` records every command sent.
- Commands: `send_command`, `cli`, the raw `self.device.send_command`.
- Getters:
  - every parser is a specification function over the reply text;
  - every loop of the source is a method proved equal to that function: `ScanTable`, `KeyedTable`, `FactTable`, `ParseInterfaces` and `ReadCpuLoad`;
  - `get_interfaces` and `get_interfaces_counters` are the same code in both drivers and are modelled once, in `SharedParsers`.
- Text handling follows Python 2 byte strings:
  - `split()`, `split('\n')`, `splitlines()` (which breaks at `\n`, `\r` and `\r\n`), `strip()`, `lower()` and `int()` are written out in `PyText`;
  - slices such as `[3:-1]` are `PyText.TableBody`;
  - each `re.search` is written out by hand in `Probes`. A greedy `(.*)` before a literal matches at the literal's last occurrence. A lemma beside each probe states exactly which match it finds.
- Lifecycle: every operation is stated as the exact commands it adds to the transcript and what it returns.

Each parser has lemmas on two kinds of input:

- **Rendered tables.** Rows are printed as space-separated tokens under the header lines (`Tables.Rendered`). The parser returns one entry per row, built from the named columns.
- **Stopping lines.** The first line the loop does not go past decides the whole call.

Where the code departs from what the NAPALM getter contracts lead one to expect, the model follows the code:

- **Empty lines in tables.** An empty line in a table does not "return the rows so far":
  - ARP, interface counters and facts return `{}` and drop every entry already built;
  - the VLAN table skips the line;
  - the Brocade MAC table raises NameError, because `return mac-address-table` evaluates an undefined name;
  - `get_interfaces` raises ValueError, because the line has no tokens.
- **Unparsable ARP ages.** The entry keeps the age as the token itself (`Age.Unparsed`). It does not become 0.0.
- **`commit_config`.** It only copies the candidate over the running configuration. It does not delete the candidate.
- **`compare_config`.** In `BrocadeDriver` it returns nothing. In `BrcdDriver` it returns the switch's reply.
- **`splitlines()[k:-1]` versus `split('\n')[k:-1]`.** With `splitlines()` (Brocade environment power and temperature, MAC table) the `-1` drops the last printed line. With `split('\n')` it drops only the empty piece after the final newline (`Tables.BodyOfRenderedLines` versus `Tables.BodyOfRendered`).
- **Interface keys.** `get_interfaces` keys interfaces by the second token only (the `0/1` of `Ethernet 0/1`). Two interfaces of different types with the same number share a key, and the last row wins (`SharedParsers.InterfacesLastWins`).

## Model

| member | source | states |
|---|---|---|
| Brocade.BrocadeDriver.constructor | napalm_brocade/brocade.py:45-59 | no connection yet; the port is `optional_args['port']`, else 22 |
| Brocade.BrocadeDriver.Open | napalm_brocade/brocade.py:62-73 | a failed connect becomes ConnectionException naming host and port and changes nothing; a successful one starts an empty transcript |
| Brocade.BrocadeDriver.Send | napalm_brocade/brocade.py:102 | `self.device.send_command`: AttributeError without a connection; otherwise the reply, with the command appended to the transcript |
| Brocade.BrocadeDriver.SendCommand | napalm_brocade/brocade.py:100-105 | the reply, or ValueError naming the command when the reply contains `Invalid input detected`; the command is sent either way |
| Brocade.BrocadeDriver.Cli | napalm_brocade/brocade.py:79-98 | a non-list raises TypeError and sends nothing; for a list (or subclass) the result is `Session.CliResult` and the commands sent are `Session.CliSent` |
| Brocade.BrocadeDriver.GetEnvironment | napalm_brocade/brocade.py:107-185 | sends the fan, power, temperature and CPU commands in that order; the result is `EnvironmentOf` the first three replies; the CPU reply is unused |
| Brocade.BrocadeDriver.GetFacts | napalm_brocade/brocade.py:187-220 | sends `show system`; the result is `BrocadeParsers.FactsOf` the reply |
| Brocade.BrocadeDriver.GetVlanTable | napalm_brocade/brocade.py:222-246 | sends `show vlan brief`; the result is `VlanTableOf` the reply |
| Brocade.BrocadeDriver.GetArpTable | napalm_brocade/brocade.py:248-286 | sends `show arp`; the result is `ArpTableOf` the reply |
| Brocade.BrocadeDriver.GetInterfaces | napalm_brocade/brocade.py:300-357 | sends `show ip interface brief`; the result is `InterfacesOf` the reply |
| Brocade.BrocadeDriver.GetInterfacesCounters | napalm_brocade/brocade.py:423-450 | sends `show interface stats brief`; the result is `CountersOf` the reply |
| Brocade.BrocadeDriver.GetMacAddressTable | napalm_brocade/brocade.py:452-500 | sends `show mac-address-table`; the result is `MacTableOf` the reply |
| Brocade.BrocadeDriver.Reboot | napalm_brocade/brocade.py:359-362 | sends `reload system\ny\n` and returns nothing |
| Brocade.BrocadeDriver.CommitConfig | napalm_brocade/brocade.py:364-367 | sends only the copy of `flash://_candidate.cfg` onto `running-config` |
| Brocade.BrocadeDriver.CheckpointRunningConfig | napalm_brocade/brocade.py:369-374 | removes `_running.cfg`, then copies `running-config` to `flash://_running.cfg` |
| Brocade.BrocadeDriver.CheckpointStartupConfig | napalm_brocade/brocade.py:376-381 | removes `_startup.cfg`, then copies `startup-config` to `flash://_startup.cfg` |
| Brocade.BrocadeDriver.LoadCandidate | napalm_brocade/brocade.py:383-405 | replace and merge alike: a failed local copy raises before anything is sent; otherwise removes the old candidate, then fetches the file over scp from the export host |
| Brocade.BrocadeDriver.RollbackConfig | napalm_brocade/brocade.py:407-412 | copies `flash://_running.cfg` back, then sends the reload command |
| Brocade.BrocadeDriver.CompareConfig | napalm_brocade/brocade.py:414-417 | sends the diff of `_running.cfg` and `_candidate.cfg` and returns nothing |
| Brocade.BrocadeDriver.DiscardConfig | napalm_brocade/brocade.py:419-421 | removes `_candidate.cfg` |
| Brcd.BrcdDriver.constructor | napalm_brcd/brcd.py:39-48 | no connection yet; the port is `optional_args['port']`, else 22 |
| Brcd.BrcdDriver.Open | napalm_brcd/brcd.py:51-58 | the transport's failure reaches the caller unchanged; success starts an empty transcript |
| Brcd.BrcdDriver.Send | napalm_brcd/brcd.py:85 | `self.device.send_command`: AttributeError without a connection; otherwise the reply |
| Brcd.BrcdDriver.SendCommand | napalm_brcd/brcd.py:84-88 | the reply, or ValueError naming the refused command |
| Brcd.BrcdDriver.Cli | napalm_brcd/brcd.py:64-82 | anything whose type is not exactly `list`, subclasses included, raises TypeError; otherwise `Session.CliResult` and `Session.CliSent` |
| Brcd.BrcdDriver.GetEnvironment | napalm_brcd/brcd.py:90-122 | sends `show proc cpu`; the result is `BrcdParsers.EnvironmentOf` the reply |
| Brcd.BrcdDriver.GetFacts | napalm_brcd/brcd.py:125-151 | sends `show system`; the result is `BrcdParsers.FactsOf` the reply |
| Brcd.BrcdDriver.GetArpTable | napalm_brcd/brcd.py:154-188 | sends `show arp`; the result is `BrcdParsers.ArpTableOf` the reply |
| Brcd.BrcdDriver.GetInterfaces | napalm_brcd/brcd.py:190-245 | sends `show ip interface brief`; the result is `InterfacesOf` the reply |
| Brcd.BrcdDriver.GetInterfacesCounters | napalm_brcd/brcd.py:314-339 | sends `show interface stats brief`; the result is `CountersOf` the reply |
| Brcd.BrcdDriver.GetMacAddressTable | napalm_brcd/brcd.py:342-347 | sends `show mac-address-table` and returns an empty list whatever the reply |
| Brcd.BrcdDriver.Reboot | napalm_brcd/brcd.py:247-250 | sends the reload command and returns nothing |
| Brcd.BrcdDriver.CommitConfig | napalm_brcd/brcd.py:252-254 | sends only the candidate copy onto `running-config` |
| Brcd.BrcdDriver.CheckpointRunningConfig | napalm_brcd/brcd.py:256-261 | removes, then saves the running checkpoint; returns the reply to the save |
| Brcd.BrcdDriver.CheckpointStartupConfig | napalm_brcd/brcd.py:263-268 | removes, then saves the startup checkpoint; returns the reply to the save |
| Brcd.BrcdDriver.LoadCandidate | napalm_brcd/brcd.py:270-293 | a failed local copy raises first; otherwise removes the candidate, then fetches the file over scp |
| Brcd.BrcdDriver.RollbackConfig | napalm_brcd/brcd.py:295-301 | copies the running checkpoint back, reboots, and returns the reply to the copy |
| Brcd.BrcdDriver.CompareConfig | napalm_brcd/brcd.py:303-307 | sends the diff command and returns its reply |
| Brcd.BrcdDriver.DiscardConfig | napalm_brcd/brcd.py:309-311 | removes the candidate |
| Session.FirstRejectedFrom | napalm_brocade/brocade.py:90-95 | the index of the first reply containing `Invalid input detected`; every earlier reply lacks it |
| Session.CliRejects | napalm_brocade/brocade.py:90-98 | `cli` fails iff some reply is refused; it then names the first refused command, and the commands sent stop at that one; on success every command is sent |
| Session.CliOutputsLastWins | napalm_brocade/brocade.py:96-97 | one key per distinct command; a repeated command holds the reply to its last occurrence |
| Session.FetchRoundTrip | napalm_brocade/brocade.py:391-392 | the scp fetch command gives back the file name it was built from |
| SharedParsers.InterfaceRow | napalm_brocade/brocade.py:333-354 | a row is an entry iff it has 6 or 7 tokens, otherwise ValueError; key = 2nd token; enabled iff the status column, lower-cased, lacks `admin`; up iff the protocol column contains `up` |
| SharedParsers.ParseInterfaces | napalm_brocade/brocade.py:309-357 | the loop builds exactly `InterfacesFrom` of the rows |
| SharedParsers.InterfacesFail | napalm_brocade/brocade.py:333-340 | the call raises iff some row has neither 6 nor 7 tokens; otherwise the dictionary is the keyed fold of the rows |
| SharedParsers.InterfacesLastWins | napalm_brcd/brcd.py:237-243 | the keys are exactly the second tokens of the rows; a repeated name holds the record of its last row |
| SharedParsers.EntryOfRow | napalm_brcd/brcd.py:221-243 | a well-formed row yields exactly its name and record |
| SharedParsers.InterfacesBlankLineRaises | napalm_brocade/brocade.py:311-340 | an empty line in the table raises ValueError instead of ending the table |
| SharedParsers.InterfacesOfThreeLines | napalm_brocade/brocade.py:306-307 | three newline-terminated lines give no rows: the row is taken as header |
| SharedParsers.CountersStop | napalm_brocade/brocade.py:432-448 | the first empty line returns `{}`, dropping earlier entries; the first row without 9 tokens raises ValueError naming its tokens |
| SharedParsers.CountersOfRendered | napalm_brcd/brcd.py:317-339 | 9-token rows under four header lines give one entry per row, in order, from the first four columns |
| SharedParsers.ArpAge | napalm_brocade/brocade.py:265-272 | `-` gives 0; a float literal gives its value; anything else keeps the token |
| BrocadeParsers.StatusLastWins | napalm_brocade/brocade.py:118-145 | fan/power tables hold exactly the matched indices; a repeated index takes the status of its last line, true iff the word is `Ok` (fans) or `OK` (power) |
| BrocadeParsers.TemperaturesOf | napalm_brocade/brocade.py:154-163 | keys are the first tokens of 4-token lines; a sensor's values come from its last line; `is_alert == is_critical`, set iff the status is not `Ok` |
| BrocadeParsers.FactsFields | napalm_brocade/brocade.py:194-220 | vendor and serial placeholders stay; each fact is the capture of its last matching line, or absent; `hostname == fqdn`; no other keys |
| BrocadeParsers.FactsBlank | napalm_brocade/brocade.py:197-199 | an empty line makes the result `{}`, placeholders included |
| BrocadeParsers.VlanOfRendered | napalm_brocade/brocade.py:230-246 | skips empty lines; every other row gives (1st, 2nd token), in order |
| BrocadeParsers.VlanStop | napalm_brocade/brocade.py:235-242 | the first non-empty line with fewer than two tokens raises IndexError |
| BrocadeParsers.ArpOfRendered | napalm_brocade/brocade.py:256-286 | 6-token rows under two header lines give entries `{interface: 3rd, mac: helpers.mac(2nd), ip: 1st, type: 6th, age}`, in order |
| BrocadeParsers.ArpStop | napalm_brocade/brocade.py:261-284 | the first empty line returns `{}`; the first row without 6 tokens raises ValueError naming its tokens |
| BrocadeParsers.MacOfRendered | napalm_brocade/brocade.py:460-500 | 6-token rows with integer VLANs give entries in order (vlan = `int`, static iff `Static`, active iff not `Inactive`, moves -1, last_move 0.0); the last printed line is never read |
| BrocadeParsers.MacStop | napalm_brocade/brocade.py:466-499 | the first empty line raises NameError; a row without 6 tokens raises ValueError; a non-integer VLAN raises `int`'s ValueError |
| BrcdParsers.ReadCpuLoad | napalm_brcd/brcd.py:101-113 | the pop loop computes exactly `CpuFrom` of the lines |
| BrcdParsers.CpuAtMarker | napalm_brcd/brcd.py:103-113 | the first line with `Realtime Statistics` decides: the next line's one-minute load, else 0.0; IndexError when no line follows; a load is a decimal |
| BrcdParsers.CpuWithoutMarker | napalm_brcd/brcd.py:103-106 | without the marker, the loop pops an empty list and raises IndexError |
| BrcdParsers.EnvironmentWith | napalm_brcd/brcd.py:98-122 | cpu 0 holds the load; power, fans and temperature hold only the `invalid` placeholders (status true, -1.0 readings, no alert) |
| BrcdParsers.FactsFields | napalm_brcd/brcd.py:127-151 | each fact is the capture of its last matching line, or absent; no other keys |
| BrcdParsers.FactsBlank | napalm_brcd/brcd.py:132-134 | an empty line makes the result `{}` |
| BrcdParsers.ArpOfRendered | napalm_brcd/brcd.py:162-188 | 6-token rows give entries `{interface: 3rd, mac: 2nd as printed, ip: 1st, age}`, with no type, in order |
| BrcdParsers.ArpStop | napalm_brcd/brcd.py:167-186 | the first empty line returns `{}`; the first row without 6 tokens raises ValueError |
| Tables.ScanTable | napalm_brocade/brocade.py:261-286 | the list-building loop computes exactly `Scan`: skip, return `{}` or raise on an empty line, per parser |
| Tables.ScanAccepted | napalm_brocade/brocade.py:235-246 | when every line is passed, the result is the entries of the non-empty lines, in order |
| Tables.ScanStops | napalm_brocade/brocade.py:432-448 | the first line not passed decides the outcome alone, whatever was built before it |
| Tables.ScanOfRows | napalm_brocade/brocade.py:466-500 | rows that all make entries give the entries of the non-empty rows, in order |
| Tables.ScanOfRendered | napalm_brocade/brocade.py:256-259 | the same, for a rendered table read with `split('\n')[k:-1]` |
| Tables.BodyOfRendered | napalm_brocade/brocade.py:426-430 | `split('\n')[k:-1]` of a rendered table with `k` header lines is exactly its rows |
| Tables.BodyOfRenderedLines | napalm_brocade/brocade.py:460-464 | `splitlines()[k:-1]` of a rendered table drops its last line |
| Tables.CollectedOfRows | napalm_brocade/brocade.py:237-244 | the entries collected from rendered rows are those of its non-empty rows |
| Tables.KeyedTable | napalm_brocade/brocade.py:137-145 | the dictionary-filling loop computes exactly `KeyedFrom` |
| Tables.KeyedLastWins | napalm_brocade/brocade.py:154-163 | keys are those yielded by some line; a key takes the value of the last line that yields it |
| Tables.KeyedPreserves | napalm_brocade/brocade.py:160-163 | a property of every yielded value holds of every value in the dictionary |
| Tables.FactTable | napalm_brcd/brcd.py:132-151 | the probing loop computes exactly `FactsFrom` |
| Tables.FactsLastMatch | napalm_brocade/brocade.py:196-218 | without empty lines a probed key holds the capture of the last matching line, else its starting value |
| Tables.FactsOtherKey | napalm_brocade/brocade.py:194-195 | keys no probe sets keep their starting value |
| Tables.FactsBlankLine | napalm_brocade/brocade.py:197-199 | one empty line anywhere empties the whole result |
| Probes.TailAfterAnchorMatches | napalm_brcd/brcd.py:136-139 | `Up Time.*: (.*)$`: matches iff the anchor ends before an occurrence of `: `; the capture follows its last occurrence |
| Probes.SplitAfterPrefixMatches | napalm_brocade/brocade.py:214-218 | `^Management IP.*: (.*)$` and the power probe: a prefix, then the last occurrence of the literal; both groups |
| Probes.ModelAndVersionMatches | napalm_brocade/brocade.py:206-212 | `^(.*) Version.*: (.*)$`: model up to the ` Version` before the last `: `, and the text after that `: ` |
| Probes.FanMatches | napalm_brocade/brocade.py:121-126 | `^Fan (.*) is (.*),.*$`: index up to the last ` is ` before the last comma; status between them |
| Probes.OneMinuteLoadMatches | napalm_brcd/brcd.py:108-112 | `^.*One minute: (\d+\.\d+); Five.*$`: a decimal from the last matching position, or no match at all |
| Probes.DecimalBeforeFiveMatches | napalm_brcd/brcd.py:108 | `\d+\.\d+; Five` at the start of a text: the decimal found, or none exists |
| PyText.SplitLinesAgreesWithSplit | napalm_brocade/brocade.py:460-464 | without `\r`, `split('\n')` is `splitlines()` plus one empty piece when the text is empty or ends in a newline |
| PyText.SplitTerminated | napalm_brocade/brocade.py:191-192 | `split('\n')` of newline-terminated lines is those lines plus one empty piece |
| PyText.SplitLinesTerminated | napalm_brocade/brocade.py:134-135 | `splitlines()` of newline-terminated lines is exactly those lines |
| PyText.TokensOfJoin | napalm_brocade/brocade.py:264-265 | `' '.join(words).split() == words` for words without whitespace |
| PyText.TableBody | napalm_brocade/brocade.py:307 | `lines[k:-1]`: all but the first `k` lines and the last one, or nothing |
| PyText.ParseInt | napalm_brocade/brocade.py:488 | `int(s)` succeeds iff `s` is an optionally signed digit string; ValueError otherwise |
| PyText.ParseIntOfNatToString | napalm_brocade/brocade.py:488 | `int(str(n)) == n` |
| PyText.Strip | napalm_brcd/brcd.py:96 | `strip()` removes whitespace from both ends and nothing else |
| PyText.Lower | napalm_brocade/brocade.py:342-343 | `lower()` changes only ASCII capitals |
| PyText.Contains | napalm_brocade/brocade.py:103 | `p in s` iff `p` occurs at some index of `s` |

## Left out

- `close` (both drivers) only disconnects the transport. The model has no transport to close.
- The transport is not modelled: SSH, prompts, timeouts, `verbose` and the `device_type` given to `ConnectHandler`. A reply is whatever the `Responder` gives, and a connect attempt is a parameter of `Open`.
- `print`: the rollback banner and the ARP age warning are output only. They are left out.
- `helpers.mac` is kept abstract as `Mac.Normalized(raw)`. Its own failure on a malformed address is not modelled. The same goes for `.decode('utf-8')` in the MAC table, which is the identity on ASCII.
- Floating point is not modelled:
  - ARP ages and the CPU load are kept as the literal text `float` reads (`Age.Seconds`, `CpuLoad.Measured`), not as a binary float;
  - the placeholders `-1.0`, `0.0` and `last_move` are exact reals.
- `load_replace_candidate` and `load_merge_candidate`:
  - the local copy into `$HOME/tmp` is the boolean `localCopy`;
  - both exceptions it can raise, a missing `HOME` and a failing `copyfile`, are one error, `LocalCopyFailed`;
  - the unused `config` argument is dropped;
  - a file name of `None` is not modelled.
- The first `get_interfaces` of `napalm_brocade/brocade.py` (lines 288-298) is not modelled. The second definition at line 300 replaces it when the class is created.
- The `get_lldp_neigbors` stubs of `napalm_brcd/brcd.py` (lines 350-354) do nothing and return `None`. They are left out.
- The `cpu` entry of the Brocade environment is always `{}`. The `show process cpu` reply is stripped and split, but the result is never used. Only the sending of the command is modelled.
- The `commands=None` default of `cli` is `CommandsArg.NotAList`.
- `napalm_brocade/utils/interactive/interactive.py`, `napalm_brcd/utils/interactive/interactive.py` and `setup.py` are not part of this model.
- Text is modelled as Python 2 byte strings of characters. Unicode handling is not modelled.

# Cisco hardening compliance and syslog setup, modelled in Dafny

`cyber.py` is a small network-operations script. It fetches a Cisco
device's running configuration over SSH and loads a file of hardening
guidelines. When both are present and non-empty, it reports the
guidelines that occur nowhere in the configuration. Finally, in every
case, it attempts to send five commands over an interactive shell to make
the device log to a syslog server.

This project models the parts whose behaviour does not depend on SSH or the
filesystem:

- `console.dfy` (module `Console`): what the script writes to standard
  output. `print(s)` writes `s` and a newline, and `"\n".join` is modelled
  as Python defines it.
- `compliance.dfy` (module `Compliance`): `check_compliance`. It has the
  filter of missing guidelines, the report lines, and the exact text that
  is printed.
- `syslog.dfy` (module `Syslog`): `configure_syslog`. It has the command
  list and the send loop as a method that builds a transcript of the
  arguments of the `shell.send` calls, a call that raises included, and
  counts the calls that returned. Where the session raises an exception is
  a parameter (`Fault`), and each fault carries the text of its exception.
  When the session cannot be opened, no command is passed on at all.
- `pipeline.dfy` (module `Pipeline`): steps 3 and 4 of `main`. It covers the
  truthiness gate on the two inputs, the banners, and the syslog step, which
  always runs.

Three facts about the code that the model keeps:

- The missing guidelines form a list, not a set: their order and their
  duplicates from the guideline file are kept (`NonCompliantCount`,
  `NonCompliantIsSubsequence`).
- `configure_syslog` calls `ssh.close()` only on the success path, because
  there is no `finally`. `ConfigureSyslog` returns `closed`, and its
  contract states exactly when it is true.
- Empty guideline lines are kept. An empty guideline line is reported
  unless the configuration also has an empty line.

## Model

| member | source | states |
|---|---|---|
| `Compliance.NonCompliant` | cyber.py:65 | the result is no longer than the guidelines; every reported line is a guideline that occurs nowhere in the running configuration |
| `Compliance.NonCompliantMembership` | cyber.py:65 | a line is reported exactly when it is a guideline and not equal to any configuration line, wherever that line would sit |
| `Compliance.NonCompliantIsSubsequence` | cyber.py:65 | the result is a subsequence of the guidelines (an increasing choice of positions exists), so guideline order is kept |
| `Compliance.NonCompliantCount` | cyber.py:65 | a missing guideline is reported as often as it occurs in the guidelines; a present one is never reported |
| `Compliance.NonCompliantEdgeCases` | cyber.py:65 | empty guidelines give an empty result for any configuration; an empty configuration gives back the guidelines unchanged |
| `Compliance.NothingMissingIffAllPresent` | cyber.py:65 | the result is empty exactly when every guideline occurs in the configuration |
| `Compliance.NonCompliantIgnoresConfigOrder` | cyber.py:65 | two configurations with the same lines, in any order and with any repetition, give the same result |
| `Compliance.NonCompliantIdempotent` | cyber.py:65 | filtering the result again against the same configuration returns it unchanged |
| `Compliance.NonCompliantAppend` | cyber.py:65 | the result for two concatenated guideline lists is the concatenation of the two results |
| `Compliance.CheckCompliance` | cyber.py:65-72 | defines the text of the print calls: the header and the newline-joined bullets when something is missing, otherwise the compliant line |
| `Compliance.Bullet` | cyber.py:70 | defines how one missing guideline is listed: `- ` followed by the guideline |
| `Compliance.Bullets` | cyber.py:70 | one `- item` line per missing guideline, same count, same order |
| `Compliance.ReportLines` | cyber.py:68-72 | the report is the single compliant line exactly when nothing is missing; otherwise it is the header and then `- item` for each missing guideline, in order |
| `Console.Printed` | cyber.py:69-72 | defines what `print(s)` writes: `s` followed by a newline |
| `Console.Join` | cyber.py:70 | defines `sep.join(items)`: empty for no items, the item itself for one, otherwise items separated by `sep` |
| `Console.Text` | cyber.py:69-72 | defines the text of printing each line of a list in turn |
| `Console.PrintedJoinIsText` | cyber.py:70 | printing a non-empty list joined by newlines writes the same text as printing each element as its own line |
| `Compliance.CheckComplianceReport` | cyber.py:65-72 | the text `check_compliance` prints is the report lines, each followed by a newline |
| `Compliance.CheckComplianceCompliantIff` | cyber.py:65-72 | the compliant message alone is printed exactly when every guideline occurs in the configuration |
| `Compliance.ExampleOneMissing` | cyber.py:65-70 | configuration `line A`, `line B` against guidelines `line A`, `line C` reports only `line C` |
| `Compliance.ExampleEmptyConfig` | cyber.py:65-70 | an empty configuration against the guideline `x` reports `x` |
| `Syslog.Commands` | cyber.py:85-91 | defines the five commands in sending order, the second being `logging host ` followed by the server |
| `Syslog.CommandsVaryOnlyInHost` | cyber.py:85-91 | there are five commands; only the second depends on the server, and different servers give different command lists |
| `Syslog.Framed` | cyber.py:105 | each command is passed on with a newline appended; as many strings as commands |
| `Syslog.FramedAt` | cyber.py:105 | the i-th argument passed to `shell.send` is the i-th command followed by a newline |
| `Syslog.FramedSnoc` | cyber.py:104-105 | sending one more command appends exactly that command with its newline to the transcript |
| `Syslog.AttemptedCount` | cyber.py:101-106 | how many `shell.send` calls are made: none when the session fails, up to and including a failing send (index + 1), otherwise all five; never more than five |
| `Syslog.ReturnedCount` | cyber.py:104-106 | how many `shell.send` calls return: at most one fewer than the calls made, and exactly one fewer precisely when a send raises |
| `Syslog.Transcript` | cyber.py:104-105 | defines the arguments of the `shell.send` calls in call order: the commands up to and including a failing send, each framed |
| `Syslog.SuccessLine` | cyber.py:111 | defines the success line: `Syslog server `, the server, then ` configured successfully.` |
| `Syslog.ErrorLine` | cyber.py:116 | defines the handler's line: `Error configuring syslog: ` followed by the exception's text |
| `Syslog.StatusLines` | cyber.py:111-116 | defines the printed status lines for each fault |
| `Syslog.SyslogOutput` | cyber.py:111-116 | defines the printed status text: the status lines, each printed |
| `Syslog.StatusReport` | cyber.py:109-116 | one or two status lines; the success line is printed exactly when no exception comes before it; the last line is an error line exactly when a fault fires, and then carries that fault's text; no earlier line is an error line; a failing close prints the success line and then the error line |
| `Syslog.ConfigureSyslog` | cyber.py:85-116 | calls `shell.send` with the commands in order, each with a newline, stopping after the first call that raises; a send raising at index i leaves i + 1 calls of which i returned; when no exception comes before the success line (`Completes`), it passes exactly the five commands for the server; when the session cannot be opened, it passes none; the printed status is that of `SyslogOutput`; the session is closed only when nothing raised |
| `Syslog.TranscriptIsPrefix` | cyber.py:104-106 | under any fault, the arguments of the `shell.send` calls are an initial part of the full sequence, never reordered or skipped |
| `Pipeline.Plan` | cyber.py:141-147 | the compliance stage runs exactly when both inputs are present and non-empty; the syslog stage always runs |
| `Pipeline.ComplianceSection` | cyber.py:141-143 | defines the compliance part of the output: the banner and the `check_compliance` text when the plan runs the check, otherwise nothing |
| `Pipeline.SyslogSection` | cyber.py:146-147 | defines the syslog part of the output: the banner and the syslog status when the plan runs the syslog step |
| `Pipeline.MainOutput` | cyber.py:140-147 | defines `main`'s output after fetching and loading: the compliance part, then the syslog part |
| `Pipeline.SyslogAlwaysRuns` | cyber.py:145-147 | for every fetch and load outcome, the output ends with the syslog banner and the syslog status |
| `Pipeline.Run` | cyber.py:140-147 | gated by `Plan` for both stages, the output is that of `MainOutput`; the arguments of the `shell.send` calls are the syslog transcript whatever the two inputs are |
| `Pipeline.SkippedCheckGoesStraightToSyslog` | cyber.py:141-147 | when either input is absent or empty, the output is only the syslog banner and the syslog status |
| `Pipeline.EmptyIsLikeAbsent` | cyber.py:141 | an empty configuration or guideline list gives the same output as a missing one |
| `Pipeline.CheckedOutput` | cyber.py:141-147 | with both inputs non-empty, the output is the banner, then the report line by line, then the syslog banner and status |

## Left out

- SSH sessions (cyber.py:18-31, 94-114): connecting, `exec_command`, `invoke_shell`, `send`, `recv(1000)` and `close` are network I/O. The shell is replaced by a transcript, and the exceptions these calls can raise are the `Fault` parameter.
- `get_running_config` and `load_hardening_guidelines` (cyber.py:4-54) are inputs of type `Option<seq<string>>`, with `None` for failure. The error lines they print are not part of the modelled output.
- Byte decoding and `splitlines` (cyber.py:28, 51) depend on Python library semantics, so the line sequences are taken as given.
- `time.sleep(1)` (cyber.py:106) is wall-clock pacing and has no effect on what is sent.
- The bytes drained by `shell.recv(1000)` are discarded by the code. Only the case where the call raises is modelled.
- `shell.send` returns the number of bytes it wrote, and cyber.py:105 ignores it. A short write, or a send that returns 0 on a closed channel without raising, is not a `Fault`. In that case the model still counts the whole command as passed on, and the success line at cyber.py:111 is still printed, as in the code.
- A `shell.send` call that raises may already have written some or all of its command to the channel. The model records the call with its whole argument and counts it as not returned; how much of it reached the device is not modelled.
- `connect`, `send` and `recv(1000)` (cyber.py:98, 105, 109) have no timeout and can block forever. `ConfigureSyslog` always returns, so a run that never ends is not modelled.
- The hard-coded address, credentials, file path and syslog server in `main` (cyber.py:124-132) are constants. The server is a parameter of the model.
- The text of an exception is a string carried by the fault. How Python formats an exception is not modelled.

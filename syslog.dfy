/** The syslog enforcer of cyber.py (`configure_syslog`).

    Five fixed commands, the second naming the syslog server, are passed in
    order to `shell.send`, each followed by a newline.  The SSH session itself
    is not modelled: the arguments of the `shell.send` calls, including a
    call that raises, are recorded in a transcript, together with how many
    of those calls returned.  The points at which the session can raise an
    exception are a parameter of the model (a `Fault`).  The one-second pause after
    each command has no effect on the transcript and is left out.
 */
module Syslog {
  import opened Console

  /** The five commands for a given syslog server, in sending order
      (cyber.py:85-91). */
  function Commands(server: string): seq<string> {
    ["configure terminal",
     "logging host " + server,
     "logging trap informational",
     "end",
     "write memory"]
  }

  /** Only the second command depends on the server, and it names the server
      unambiguously: two servers give the same commands only if they are the
      same server. */
  lemma CommandsVaryOnlyInHost(server1: string, server2: string)
    ensures |Commands(server1)| == |Commands(server2)| == 5
    ensures forall i :: 0 <= i < 5 && i != 1 ==> Commands(server1)[i] == Commands(server2)[i]
    ensures Commands(server1) == Commands(server2) <==> server1 == server2
  {
    var prefix := "logging host ";
    if Commands(server1) == Commands(server2) {
      assert (prefix + server1)[|prefix|..] == server1;
      assert (prefix + server2)[|prefix|..] == server2;
    }
  }

  /** Each command as passed to `shell.send`: followed by a newline
      (cyber.py:105). */
  function Framed(commands: seq<string>): (sent: seq<string>)
    ensures |sent| == |commands|
    decreases |commands|
  {
    if commands == [] then [] else [commands[0] + "\n"] + Framed(commands[1..])
  }

  /** The `i`-th string passed on is the `i`-th command with a newline. */
  lemma {:induction false} FramedAt(commands: seq<string>, i: nat)
    requires i < |commands|
    ensures Framed(commands)[i] == commands[i] + "\n"
    decreases |commands|
  {
    if i > 0 {
      FramedAt(commands[1..], i - 1);
    }
  }

  /** Framing one more command adds its framed form at the end. */
  lemma {:induction false} FramedSnoc(commands: seq<string>, command: string)
    ensures Framed(commands + [command]) == Framed(commands) + [command + "\n"]
    decreases |commands|
  {
    if commands != [] {
      assert (commands + [command])[1..] == commands[1..] + [command];
      FramedSnoc(commands[1..], command);
    }
  }

  /** Where the SSH session raises an exception, if anywhere, with the text of
      that exception.  `SessionFails`: connecting or opening the shell fails;
      `SendFails(index, _)`: sending the command at `index` fails (an index
      past the last command never fires); `ReceiveFails`: draining the
      buffer fails; `CloseFails`: closing the session fails. */
  datatype Fault =
    | NoFault
    | SessionFails(detail: string)
    | SendFails(index: nat, detail: string)
    | ReceiveFails(detail: string)
    | CloseFails(detail: string)

  /** How many `shell.send` calls are made under a given fault: a failing
      send is still called, with its command as argument. */
  function AttemptedCount(fault: Fault): (n: nat)
    ensures n <= 5
    ensures fault.SendFails? && fault.index < 5 ==> n == fault.index + 1
  {
    match fault
    case SessionFails(_) => 0
    case SendFails(index, _) => if index < 5 then index + 1 else 5
    case _ => 5
  }

  /** How many `shell.send` calls return under a given fault. */
  function ReturnedCount(fault: Fault): (n: nat)
    ensures n <= AttemptedCount(fault) <= n + 1
    ensures n == AttemptedCount(fault) <==> !(fault.SendFails? && fault.index < 5)
  {
    match fault
    case SessionFails(_) => 0
    case SendFails(index, _) => if index < 5 then index else 5
    case _ => 5
  }

  /** Whether the sequence runs to the end of the success message: no
      exception before the `print` at cyber.py:111. */
  predicate Completes(fault: Fault) {
    fault.NoFault? || fault.CloseFails? || (fault.SendFails? && fault.index >= 5)
  }

  /** Whether the fault actually raises: a send fault past the last command
      never does. */
  predicate Fires(fault: Fault) {
    match fault
    case NoFault => false
    case SendFails(index, _) => index < 5
    case _ => true
  }

  /** The success line (cyber.py:111). */
  function SuccessLine(server: string): string {
    "Syslog server " + server + " configured successfully."
  }

  /** How every line printed by the exception handler starts (cyber.py:116). */
  const ERROR_PREFIX := "Error configuring syslog: "

  /** The line printed by the exception handler (cyber.py:116). */
  function ErrorLine(detail: string): string {
    ERROR_PREFIX + detail
  }

  /** Whether a line is one printed by the exception handler. */
  predicate IsErrorLine(line: string) {
    ERROR_PREFIX <= line
  }

  /** The lines `configure_syslog` prints under a fault, in order.  A failure
      to close comes after the success line has been printed, so both lines
      appear. */
  function StatusLines(server: string, fault: Fault): seq<string> {
    match fault
    case NoFault => [SuccessLine(server)]
    case SessionFails(detail) => [ErrorLine(detail)]
    case SendFails(index, detail) =>
      if index < 5 then [ErrorLine(detail)] else [SuccessLine(server)]
    case ReceiveFails(detail) => [ErrorLine(detail)]
    case CloseFails(detail) => [SuccessLine(server), ErrorLine(detail)]
  }

  /** What `configure_syslog` writes to standard output under a fault. */
  function SyslogOutput(server: string, fault: Fault): string {
    Text(StatusLines(server, fault))
  }

  /** The status lines: the success line is printed exactly when no exception
      comes before it; an error line, carrying the exception's text, is
      printed exactly when a fault fires, and it is always the last line;
      under a failing close it follows the success line. */
  lemma StatusReport(server: string, fault: Fault)
    ensures var lines := StatusLines(server, fault);
      && 1 <= |lines| <= 2
      && (SuccessLine(server) in lines <==> Completes(fault))
      && (IsErrorLine(lines[|lines| - 1]) <==> Fires(fault))
      && (Fires(fault) ==> lines[|lines| - 1] == ErrorLine(fault.detail))
      && (forall i :: 0 <= i < |lines| - 1 ==> !IsErrorLine(lines[i]))
      && (fault.CloseFails? ==> lines == [SuccessLine(server), ErrorLine(fault.detail)])
  {
    var success := SuccessLine(server);
    assert success[0] == 'S' && ERROR_PREFIX[0] == 'E';
    assert !IsErrorLine(success);
    if !fault.NoFault? {
      assert ErrorLine(fault.detail)[..|ERROR_PREFIX|] == ERROR_PREFIX;
    }
    var lines := StatusLines(server, fault);
    if Fires(fault) && !Completes(fault) {
      assert success != ErrorLine(fault.detail);
      assert success !in lines;
    }
  }

  /** The arguments of the `shell.send` calls, in call order: the commands
      up to and including a failing send, framed. */
  function Transcript(server: string, fault: Fault): seq<string> {
    Framed(Commands(server)[..AttemptedCount(fault)])
  }

  /** Passes the syslog commands to `shell.send` in order, stopping after the
      first send that raises (cyber.py:85-116).  Returns the arguments of the
      `shell.send` calls, how many of those calls returned, what was printed,
      and whether the session was closed; the session is closed only on the
      path without an exception before `ssh.close()`. */
  method ConfigureSyslog(server: string, fault: Fault)
    returns (transcript: seq<string>, returned: nat, output: string, closed: bool)
    ensures transcript == Transcript(server, fault)
    ensures |transcript| == AttemptedCount(fault)
    ensures forall i :: 0 <= i < |transcript| ==> transcript[i] == Commands(server)[i] + "\n"
    ensures returned == ReturnedCount(fault)
    ensures fault.SendFails? && fault.index < 5 ==> returned == fault.index && |transcript| == returned + 1
    ensures fault.SessionFails? ==> transcript == [] && returned == 0
    ensures Completes(fault) ==> transcript == ["configure terminal\n", "logging host " + server + "\n",
                                                "logging trap informational\n", "end\n", "write memory\n"]
    ensures output == SyslogOutput(server, fault)
    ensures closed <==> Completes(fault) && !fault.CloseFails?
  {
    var commands := Commands(server);
    transcript, returned := [], 0;
    if fault.SessionFails? {
      output := Printed(ErrorLine(fault.detail));
      assert Text([ErrorLine(fault.detail)]) == output + Text([]);
      closed := false;
      return;
    }
    var i := 0;
    while i < |commands| && !(fault.SendFails? && fault.index == i)
      invariant 0 <= i <= ReturnedCount(fault)
      invariant transcript == Framed(commands[..i])
      invariant returned == i
    {
      FramedSnoc(commands[..i], commands[i]);
      assert commands[..i + 1] == commands[..i] + [commands[i]];
      transcript := transcript + [commands[i] + "\n"];
      i := i + 1;
      returned := returned + 1;
    }
    if i < |commands| {
      // The failing call is made with this command as its argument, and raises.
      FramedSnoc(commands[..i], commands[i]);
      assert commands[..i + 1] == commands[..i] + [commands[i]];
      transcript := transcript + [commands[i] + "\n"];
      forall k | 0 <= k < |transcript| ensures transcript[k] == commands[k] + "\n" {
        FramedAt(commands[..i + 1], k);
      }
      output := Printed(ErrorLine(fault.detail));
      assert Text([ErrorLine(fault.detail)]) == output + Text([]);
      closed := false;
      return;
    }
    assert commands[..i] == commands;
    forall k | 0 <= k < |transcript| ensures transcript[k] == commands[k] + "\n" {
      FramedAt(commands, k);
    }
    assert transcript == [commands[0] + "\n", commands[1] + "\n", commands[2] + "\n",
                          commands[3] + "\n", commands[4] + "\n"];
    assert commands[0] + "\n" == "configure terminal\n";
    assert commands[1] + "\n" == "logging host " + server + "\n";
    assert commands[2] + "\n" == "logging trap informational\n";
    assert commands[3] + "\n" == "end\n";
    assert commands[4] + "\n" == "write memory\n";
    if fault.ReceiveFails? {
      output := Printed(ErrorLine(fault.detail));
      assert Text([ErrorLine(fault.detail)]) == output + Text([]);
      closed := false;
      return;
    }
    output := Printed(SuccessLine(server));
    if fault.CloseFails? {
      output := output + Printed(ErrorLine(fault.detail));
      assert [SuccessLine(server), ErrorLine(fault.detail)][1..] == [ErrorLine(fault.detail)];
      assert Text([ErrorLine(fault.detail)]) == Printed(ErrorLine(fault.detail)) + Text([]);
      closed := false;
    } else {
      assert Text([SuccessLine(server)]) == output + Text([]);
      closed := true;
    }
  }

  /** Whatever the fault, the arguments of the `shell.send` calls are an
      initial part of the full command sequence: never reordered or skipped. */
  lemma TranscriptIsPrefix(server: string, fault: Fault)
    ensures Transcript(server, fault) <= Transcript(server, NoFault)
  {
    var n := AttemptedCount(fault);
    var full := Commands(server);
    assert full[..5] == full;
    var partial := Transcript(server, fault);
    forall i | 0 <= i < n ensures partial[i] == Transcript(server, NoFault)[i] {
      FramedAt(full[..n], i);
      FramedAt(full, i);
    }
  }
}

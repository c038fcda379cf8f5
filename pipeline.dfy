/** The orchestration in `main` of cyber.py.

    The running configuration and the guidelines come from the SSH fetch and
    from the guideline file; both producers return `None` on failure, and
    both are inputs to this model.  The compliance check runs only when both
    are present and non-empty (Python's truthiness of a list); the syslog
    step runs afterwards in every case.
 */
module Pipeline {
  import opened Console
  import Compliance
  import Syslog

  datatype Option<T> = None | Some(value: T)

  /** Python's truth value of an optional list of lines: `None` and `[]`
      are false. */
  predicate Truthy(lines: Option<seq<string>>) {
    lines.Some? && lines.value != []
  }

  /** Which stages `main` runs. */
  datatype Stages = Stages(compliance: bool, syslog: bool)

  /** The stage gating of cyber.py:141-147. */
  function Plan(runningConfig: Option<seq<string>>, guidelines: Option<seq<string>>): (stages: Stages)
    ensures stages.syslog
    ensures stages.compliance <==> runningConfig.Some? && guidelines.Some?
                                   && |runningConfig.value| > 0 && |guidelines.value| > 0
  {
    Stages(Truthy(runningConfig) && Truthy(guidelines), true)
  }

  /** Printed before the compliance report (cyber.py:142). */
  const CHECKING_BANNER := "\nChecking compliance with hardening guidelines..."

  /** Printed before the syslog step (cyber.py:146). */
  const SYSLOG_BANNER := "\nConfiguring syslog on the device..."

  /** The compliance part of `main`'s output: empty when the check is skipped. */
  function ComplianceSection(runningConfig: Option<seq<string>>, guidelines: Option<seq<string>>): string {
    if Plan(runningConfig, guidelines).compliance then
      Printed(CHECKING_BANNER) + Compliance.CheckCompliance(runningConfig.value, guidelines.value)
    else ""
  }

  /** The syslog part of `main`'s output: the banner and the status lines. */
  function SyslogSection(runningConfig: Option<seq<string>>, guidelines: Option<seq<string>>,
                         server: string, fault: Syslog.Fault): string {
    if Plan(runningConfig, guidelines).syslog then
      Printed(SYSLOG_BANNER) + Syslog.SyslogOutput(server, fault)
    else ""
  }

  /** All that `main` writes to standard output after fetching and loading. */
  function MainOutput(runningConfig: Option<seq<string>>, guidelines: Option<seq<string>>,
                      server: string, fault: Syslog.Fault): string {
    ComplianceSection(runningConfig, guidelines) + SyslogSection(runningConfig, guidelines, server, fault)
  }

  /** Steps 3 and 4 of `main` (cyber.py:140-147): the gated compliance check,
      then the syslog step, which never depends on the first two inputs. */
  method Run(runningConfig: Option<seq<string>>, guidelines: Option<seq<string>>,
             server: string, fault: Syslog.Fault)
    returns (output: string, transcript: seq<string>)
    ensures output == MainOutput(runningConfig, guidelines, server, fault)
    ensures transcript == Syslog.Transcript(server, fault)
  {
    var stages := Plan(runningConfig, guidelines);
    output := "";
    if stages.compliance {
      output := Printed(CHECKING_BANNER) + Compliance.CheckCompliance(runningConfig.value, guidelines.value);
    }
    if stages.syslog {
      output := output + Printed(SYSLOG_BANNER);
      var returned, syslogOutput, closed;
      transcript, returned, syslogOutput, closed := Syslog.ConfigureSyslog(server, fault);
      output := output + syslogOutput;
    } else {
      transcript := [];
    }
  }

  /** A missing or empty configuration, or missing or empty guidelines: the
      comparison is skipped and the output goes straight to the syslog step. */
  lemma SkippedCheckGoesStraightToSyslog(runningConfig: Option<seq<string>>, guidelines: Option<seq<string>>,
                                         server: string, fault: Syslog.Fault)
    requires !Truthy(runningConfig) || !Truthy(guidelines)
    ensures MainOutput(runningConfig, guidelines, server, fault)
         == Printed(SYSLOG_BANNER) + Syslog.SyslogOutput(server, fault)
  {
  }

  /** An empty fetched configuration behaves exactly like a failed fetch,
      and an empty guideline file exactly like an unreadable one. */
  lemma EmptyIsLikeAbsent(runningConfig: Option<seq<string>>, guidelines: Option<seq<string>>,
                          server: string, fault: Syslog.Fault)
    ensures MainOutput(Some([]), guidelines, server, fault) == MainOutput(None, guidelines, server, fault)
    ensures MainOutput(runningConfig, Some([]), server, fault) == MainOutput(runningConfig, None, server, fault)
  {
  }

  /** Whatever the fetch and the load produced, the output ends with the
      syslog banner and the syslog status. */
  lemma SyslogAlwaysRuns(runningConfig: Option<seq<string>>, guidelines: Option<seq<string>>,
                         server: string, fault: Syslog.Fault)
    ensures var out := MainOutput(runningConfig, guidelines, server, fault);
            var tail := Printed(SYSLOG_BANNER) + Syslog.SyslogOutput(server, fault);
            |tail| <= |out| && out[|out| - |tail|..] == tail
  {
  }

  /** With both inputs present and non-empty, the output is the banner, the
      compliance report line by line, the syslog banner and the syslog
      status. */
  lemma CheckedOutput(runningConfig: seq<string>, guidelines: seq<string>, server: string, fault: Syslog.Fault)
    requires runningConfig != [] && guidelines != []
    ensures MainOutput(Some(runningConfig), Some(guidelines), server, fault)
         == Printed(CHECKING_BANNER)
          + Text(Compliance.ReportLines(Compliance.NonCompliant(runningConfig, guidelines)))
          + Printed(SYSLOG_BANNER) + Syslog.SyslogOutput(server, fault)
  {
    Compliance.CheckComplianceReport(runningConfig, guidelines);
  }
}

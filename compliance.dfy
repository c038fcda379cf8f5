/** The compliance comparator of cyber.py (`check_compliance`).

    The device's running configuration and the hardening guidelines are both
    sequences of lines.  A guideline is missing when no line of the running
    configuration equals it exactly; the position of the matching line does
    not matter.  The missing guidelines keep the order, and the repetitions,
    they have in the guideline list.  The comparator then prints either a
    single "compliant" line, or a header followed by one `- item` line per
    missing guideline.
 */
module Compliance {
  import opened Console

  /** The guideline lines that occur nowhere in the running configuration,
      in guideline order (the list comprehension at cyber.py:65). */
  function NonCompliant(runningConfig: seq<string>, guidelines: seq<string>): (missing: seq<string>)
    ensures |missing| <= |guidelines|
    ensures forall g :: g in missing ==> g in guidelines && g !in runningConfig
    decreases |guidelines|
  {
    if guidelines == [] then []
    else if guidelines[0] in runningConfig then NonCompliant(runningConfig, guidelines[1..])
    else [guidelines[0]] + NonCompliant(runningConfig, guidelines[1..])
  }

  /** A line is reported missing exactly when it is a guideline that does not
      occur anywhere in the running configuration. */
  lemma {:induction false} NonCompliantMembership(runningConfig: seq<string>, guidelines: seq<string>, line: string)
    ensures line in NonCompliant(runningConfig, guidelines) <==> line in guidelines && line !in runningConfig
    decreases |guidelines|
  {
    if guidelines != [] {
      NonCompliantMembership(runningConfig, guidelines[1..], line);
      assert line in guidelines <==> line == guidelines[0] || line in guidelines[1..] by {
        assert guidelines == [guidelines[0]] + guidelines[1..];
      }
    }
  }

  /** `idx` picks the elements of `s`, in order, out of `t`. */
  ghost predicate Embeds(idx: seq<nat>, s: seq<string>, t: seq<string>) {
    && |idx| == |s|
    && (forall i :: 0 <= i < |idx| ==> idx[i] < |t| && s[i] == t[idx[i]])
    && (forall i, j :: 0 <= i < j < |idx| ==> idx[i] < idx[j])
  }

  /** `s` is obtained from `t` by deleting elements, keeping the rest in order. */
  ghost predicate IsSubsequence(s: seq<string>, t: seq<string>) {
    exists idx: seq<nat> :: Embeds(idx, s, t)
  }

  /** Every position moved one place to the right. */
  ghost function Shifted(idx: seq<nat>): seq<nat> {
    seq(|idx|, i requires 0 <= i < |idx| => idx[i] + 1)
  }

  /** An embedding into the tail of `t` is an embedding into `t`, and
      extends to one that also picks `t`'s first element. */
  lemma EmbedsInTail(idx: seq<nat>, s: seq<string>, t: seq<string>)
    requires t != [] && Embeds(idx, s, t[1..])
    ensures Embeds(Shifted(idx), s, t)
    ensures Embeds([0] + Shifted(idx), [t[0]] + s, t)
  {
  }

  /** The missing guidelines are a subsequence of the guidelines: nothing is
      invented and guideline order is kept. */
  lemma {:induction false} NonCompliantIsSubsequence(runningConfig: seq<string>, guidelines: seq<string>)
    ensures IsSubsequence(NonCompliant(runningConfig, guidelines), guidelines)
    decreases |guidelines|
  {
    if guidelines == [] {
      assert Embeds([], [], guidelines);
    } else {
      var rest := guidelines[1..];
      NonCompliantIsSubsequence(runningConfig, rest);
      var idx :| Embeds(idx, NonCompliant(runningConfig, rest), rest);
      EmbedsInTail(idx, NonCompliant(runningConfig, rest), guidelines);
      if guidelines[0] in runningConfig {
        assert Embeds(Shifted(idx), NonCompliant(runningConfig, guidelines), guidelines);
      } else {
        assert Embeds([0] + Shifted(idx), NonCompliant(runningConfig, guidelines), guidelines);
      }
    }
  }

  /** A missing guideline is reported as many times as it occurs in the
      guidelines; a guideline that is present is not reported at all. */
  lemma {:induction false} NonCompliantCount(runningConfig: seq<string>, guidelines: seq<string>, line: string)
    ensures multiset(NonCompliant(runningConfig, guidelines))[line]
         == if line in runningConfig then 0 else multiset(guidelines)[line]
    decreases |guidelines|
  {
    if guidelines != [] {
      var rest := guidelines[1..];
      NonCompliantCount(runningConfig, rest, line);
      assert guidelines == [guidelines[0]] + rest;
      assert multiset(guidelines) == multiset([guidelines[0]]) + multiset(rest);
      if guidelines[0] !in runningConfig {
        var tail := NonCompliant(runningConfig, rest);
        assert multiset([guidelines[0]] + tail) == multiset([guidelines[0]]) + multiset(tail);
      }
    }
  }

  /** No guidelines: nothing is missing, whatever the configuration.
      An empty configuration: every guideline is missing, in order. */
  lemma {:induction false} NonCompliantEdgeCases(runningConfig: seq<string>, guidelines: seq<string>)
    ensures NonCompliant(runningConfig, []) == []
    ensures NonCompliant([], guidelines) == guidelines
    decreases |guidelines|
  {
    if guidelines != [] {
      NonCompliantEdgeCases(runningConfig, guidelines[1..]);
      assert guidelines == [guidelines[0]] + guidelines[1..];
    }
  }

  /** Nothing is missing exactly when every guideline occurs somewhere in the
      running configuration. */
  lemma {:induction false} NothingMissingIffAllPresent(runningConfig: seq<string>, guidelines: seq<string>)
    ensures NonCompliant(runningConfig, guidelines) == []
        <==> forall g :: g in guidelines ==> g in runningConfig
  {
    var missing := NonCompliant(runningConfig, guidelines);
    if missing != [] {
      NonCompliantMembership(runningConfig, guidelines, missing[0]);
    } else {
      forall g | g in guidelines ensures g in runningConfig {
        NonCompliantMembership(runningConfig, guidelines, g);
      }
    }
  }

  /** Only which lines the configuration contains matters: reordering the
      configuration or repeating its lines does not change the result. */
  lemma {:induction false} NonCompliantIgnoresConfigOrder(config1: seq<string>, config2: seq<string>, guidelines: seq<string>)
    requires forall line :: line in config1 <==> line in config2
    ensures NonCompliant(config1, guidelines) == NonCompliant(config2, guidelines)
    decreases |guidelines|
  {
    if guidelines != [] {
      NonCompliantIgnoresConfigOrder(config1, config2, guidelines[1..]);
    }
  }

  /** Comparing the missing guidelines again against the same configuration
      gives them back unchanged. */
  lemma {:induction false} NonCompliantIdempotent(runningConfig: seq<string>, guidelines: seq<string>)
    ensures NonCompliant(runningConfig, NonCompliant(runningConfig, guidelines))
         == NonCompliant(runningConfig, guidelines)
    decreases |guidelines|
  {
    if guidelines != [] {
      var rest := guidelines[1..];
      NonCompliantIdempotent(runningConfig, rest);
      if guidelines[0] !in runningConfig {
        var missing := [guidelines[0]] + NonCompliant(runningConfig, rest);
        assert missing[1..] == NonCompliant(runningConfig, rest);
      }
    }
  }

  /** The guideline file can be checked piecewise: the missing lines of two
      consecutive parts are the missing lines of each part, in order. */
  lemma {:induction false} NonCompliantAppend(runningConfig: seq<string>, first: seq<string>, second: seq<string>)
    ensures NonCompliant(runningConfig, first + second)
         == NonCompliant(runningConfig, first) + NonCompliant(runningConfig, second)
    decreases |first|
  {
    if first == [] {
      assert first + second == second;
    } else {
      assert (first + second)[1..] == first[1..] + second;
      NonCompliantAppend(runningConfig, first[1..], second);
    }
  }

  /** The line printed when nothing is missing (cyber.py:72).  It is one
      line; it is written as two literals because Dafny can read the
      characters of a short literal but not those of a literal this long,
      and `CheckComplianceCompliantIff` needs its first character. */
  const COMPLIANT_MESSAGE := "Configuration is " + "compliant with hardening guidelines."

  /** The line printed before the missing guidelines (cyber.py:69). */
  const NON_COMPLIANT_HEADER := "Non-compliant configurations found:"

  /** How one missing guideline is listed (cyber.py:70). */
  function Bullet(item: string): string {
    "- " + item
  }

  /** One `- item` line per missing guideline, in order. */
  function Bullets(items: seq<string>): (lines: seq<string>)
    ensures |lines| == |items|
    ensures forall i :: 0 <= i < |items| ==> lines[i] == Bullet(items[i])
    decreases |items|
  {
    if items == [] then [] else [Bullet(items[0])] + Bullets(items[1..])
  }

  /** The report as a list of output lines. */
  function ReportLines(missing: seq<string>): (lines: seq<string>)
    ensures lines == [COMPLIANT_MESSAGE] <==> missing == []
    ensures missing != [] ==>
              && |lines| == |missing| + 1
              && lines[0] == NON_COMPLIANT_HEADER
              && forall i :: 0 <= i < |missing| ==> lines[i + 1] == Bullet(missing[i])
  {
    if missing == [] then [COMPLIANT_MESSAGE] else [NON_COMPLIANT_HEADER] + Bullets(missing)
  }

  /** What `check_compliance` writes to standard output, print call by print
      call (cyber.py:65-72). */
  function CheckCompliance(runningConfig: seq<string>, guidelines: seq<string>): string {
    var missing := NonCompliant(runningConfig, guidelines);
    if missing != [] then
      Printed(NON_COMPLIANT_HEADER) + Printed(Join("\n", Bullets(missing)))
    else
      Printed(COMPLIANT_MESSAGE)
  }

  /** The output of `check_compliance` is the header followed by one
      `- item` line per missing guideline, or the single compliant line. */
  lemma CheckComplianceReport(runningConfig: seq<string>, guidelines: seq<string>)
    ensures CheckCompliance(runningConfig, guidelines)
         == Text(ReportLines(NonCompliant(runningConfig, guidelines)))
  {
    var missing := NonCompliant(runningConfig, guidelines);
    if missing != [] {
      var bullets := Bullets(missing);
      PrintedJoinIsText(bullets);
      var lines := ReportLines(missing);
      assert lines[1..] == bullets;
      assert Text([COMPLIANT_MESSAGE]) == Printed(COMPLIANT_MESSAGE) + Text([]);
    } else {
      assert Text([COMPLIANT_MESSAGE]) == Printed(COMPLIANT_MESSAGE) + Text([]);
    }
  }

  /** The compliant message is printed exactly when every guideline occurs in
      the running configuration, whatever its order or duplicates. */
  lemma CheckComplianceCompliantIff(runningConfig: seq<string>, guidelines: seq<string>)
    ensures CheckCompliance(runningConfig, guidelines) == Printed(COMPLIANT_MESSAGE)
        <==> forall g :: g in guidelines ==> g in runningConfig
  {
    NothingMissingIffAllPresent(runningConfig, guidelines);
    var missing := NonCompliant(runningConfig, guidelines);
    if missing != [] {
      var out := CheckCompliance(runningConfig, guidelines);
      assert out[0] == NON_COMPLIANT_HEADER[0] == 'N';
      assert COMPLIANT_MESSAGE[0] == 'C';
      assert Printed(COMPLIANT_MESSAGE)[0] == 'C';
    }
  }

  /** A running configuration with lines A and B checked against guidelines
      A and C: only C is reported. */
  lemma ExampleOneMissing()
    ensures NonCompliant(["line A", "line B"], ["line A", "line C"]) == ["line C"]
    ensures ReportLines(NonCompliant(["line A", "line B"], ["line A", "line C"]))
         == [NON_COMPLIANT_HEADER, "- line C"]
  {
    assert "line A" in ["line A", "line B"];
    assert "line C" !in ["line A", "line B"];
    assert ["line A", "line C"][1..] == ["line C"];
    assert Bullet("line C") == "- line C";
  }

  /** An empty running configuration checked against one guideline: that
      guideline is reported. */
  lemma ExampleEmptyConfig()
    ensures ReportLines(NonCompliant([], ["x"])) == [NON_COMPLIANT_HEADER, "- x"]
  {
    NonCompliantEdgeCases([], ["x"]);
    assert Bullet("x") == "- x";
  }
}

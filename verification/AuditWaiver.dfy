/** The audit tool from file to exit code: which text waives which report
    (sub2api/tools/check_pnpm_audit_exceptions.py). */
module AuditWaiver {
  import opened AuditGate
  import opened AuditReport
  import opened AuditVerdict
  import opened ExceptionFile
  import opened PyText
  import opened Wrappers

  /** An advisory record of a named package, of high or critical severity, with a GHSA number. */
  ghost predicate Alarming(h: Host, a: Json) {
    && a.JObj?
    && Get(a, "module_name").JStr? && Get(a, "module_name").s != ""
    && Get(a, "github_advisory_id").JStr? && Get(a, "github_advisory_id").s != ""
    && Get(a, "severity").JStr? && Get(a, "severity").s != ""
    && (Lowers(h, Get(a, "severity").s, "high") || Lowers(h, Get(a, "severity").s, "critical"))
  }

  /** The finding of such a record, in full. */
  lemma {:induction false} AlarmingFinding(h: Host, a: Json)
    requires Alarming(h, a)
    ensures AdvisoryFinding(h.show, a) == Some(Finding(Get(a, "module_name"), Get(a, "severity"), Get(a, "github_advisory_id")))
    ensures Reports(h.show, a, AdvisoryFinding(h.show, a).value)
    ensures Readable(h, AdvisoryFinding(h.show, a).value) && Relevant(h, AdvisoryFinding(h.show, a).value)
  {
    var f := Finding(Get(a, "module_name"), Get(a, "severity"), Get(a, "github_advisory_id"));
    assert FirstTrueAt([Get(a, "module_name"), Get(a, "name")], f.name, 0);
    assert FirstTrueAt(AdvisoryIds(h.show, a), f.advisory, 0);
    AdvisoryExact(h.show, a, f);
    RelevantExact(h, f);
  }

  /** The exception is for this package and this advisory, up to padding and the case of the advisory. */
  ghost predicate Concerns(h: Host, e: Record, a: Json)
    requires Alarming(h, a)
  {
    && SamePadded(Field(e, "package"), Get(a, "module_name").s)
    && exists lowered :: Lowers(h, Field(e, "advisory"), lowered) && Lowers(h, Get(a, "github_advisory_id").s, lowered)
  }

  lemma {:induction false} ConcernsKey(h: Host, e: Record, a: Json)
    requires Alarming(h, a)
    ensures AdvisoryFinding(h.show, a).Some?
    ensures Concerns(h, e, a) <==> KeyOf(h, e) == FindingKey(h, AdvisoryFinding(h.show, a).value)
  {
    AlarmingFinding(h, a);
    MatchIgnoresPaddingAndCase(h, e, AdvisoryFinding(h.show, a).value);
  }

  /** Without an exception that concerns it, one alarming record makes the tool exit with 1. */
  lemma {:induction false} UnwaivedFails(h: Host, today: int, report: Json, text: string, key: string, a: Json)
    requires Runs(h, report, text) && Listed(Get(report, "advisories"), (key, a)) && Alarming(h, a)
    requires forall e <- Parse(ReadLines(text)).value :: !Concerns(h, e, a)
    ensures !Passes(h, today, Parse(ReadLines(text)).value, Findings(h.show, report).value)
  {
    var excs, fs := Parse(ReadLines(text)).value, Findings(h.show, report).value;
    AlarmingFinding(h, a);
    var f := AdvisoryFinding(h.show, a).value;
    FindingsExact(h.show, report, f);
    assert f in fs;
    if Passes(h, today, excs, fs) {
      var e :| e in excs && Excuses(h, today, e, f);
      ConcernsKey(h, e, a);
      assert false;
    }
  }

  /** A report of one advisory record. */
  ghost predicate OneAdvisory(report: Json, a: Json) {
    && report.JObj? && Entries(Get(report, "vulnerabilities")) == []
    && |Entries(Get(report, "advisories"))| == 1 && Entries(Get(report, "advisories"))[0].1 == a
  }

  lemma {:induction false} OneAdvisoryRead(h: Host, report: Json, a: Json)
    requires Alarming(h, a) && OneAdvisory(report, a)
    ensures AdvisoryFinding(h.show, a).Some?
    ensures Findings(h.show, report) == Some([AdvisoryFinding(h.show, a).value])
  {
    AlarmingFinding(h, a);
    var f := AdvisoryFinding(h.show, a).value;
    var entries := Entries(Get(report, "advisories"));
    assert entries[..|entries| - 1] == [] && AdvisorySection(h.show, entries) == Some([] + [f]);
    assert [] + [f] + [] == [f];
  }

  /** The exception concerns the record, is current, and has its severity. */
  ghost predicate Waives(h: Host, today: int, e: Record, a: Json)
    requires Alarming(h, a)
  {
    && WellFormed(h, e) && Concerns(h, e, a) && today <= Compiled(h, e).expires
    && exists lowered :: Lowers(h, Field(e, "severity"), lowered) && Lowers(h, Get(a, "severity").s, lowered)
  }

  lemma {:induction false} OneWaived(h: Host, today: int, e: Record, f: Finding)
    requires WellFormed(h, e) && Readable(h, f) && Excuses(h, today, e, f) && Agrees(h, e, f)
    ensures AllReadable(h, [f]) && Passes(h, today, [e], [f])
  {
    assert e in [e];
  }

  lemma {:induction false} RecordWaived(h: Host, today: int, e: Record, a: Json)
    requires Alarming(h, a) && Waives(h, today, e, a)
    ensures AdvisoryFinding(h.show, a).Some?
    ensures AllReadable(h, [AdvisoryFinding(h.show, a).value]) && Passes(h, today, [e], [AdvisoryFinding(h.show, a).value])
  {
    AlarmingFinding(h, a);
    ConcernsKey(h, e, a);
    Excusing(h, today, e, AdvisoryFinding(h.show, a).value);
    OneWaived(h, today, e, AdvisoryFinding(h.show, a).value);
  }

  lemma {:induction false} Excusing(h: Host, today: int, e: Record, f: Finding)
    requires WellFormed(h, e) && KeyOf(h, e) == FindingKey(h, f) && today <= Compiled(h, e).expires
    requires f.severity.JStr? && f.severity.s != ""
    requires exists lowered :: Lowers(h, Field(e, "severity"), lowered) && Lowers(h, f.severity.s, lowered)
    ensures Readable(h, f) && Excuses(h, today, e, f) && Agrees(h, e, f)
  {
    var lowered :| Lowers(h, Field(e, "severity"), lowered) && Lowers(h, f.severity.s, lowered);
    LowersExact(h, Field(e, "severity"), lowered);
    LowersExact(h, f.severity.s, lowered);
  }

  lemma {:induction false} OneRead(exc: Pairs, eol: string, lines: seq<string>, last: string)
    requires Printable(exc) && IsEol(eol) && Dressed(PrintAll([exc]), lines + Ending(last)) && AllOneLine(lines) && OneLine(last)
    ensures Parse(ReadLines(ToText(eol, lines) + last)) == Some([ToRecord(exc)])
  {
    RoundTripText(eol, [exc], lines, last);
    assert Records([exc]) == [ToRecord(exc)];
  }

  /** From the two files to exit code 0: a printed exception, in whatever quoting, indentation and line endings,
      waives the record that it concerns, up to the day on which it expires. */
  lemma {:induction false} WaiverWorks(h: Host, today: int, report: Json, a: Json, exc: Pairs, eol: string, lines: seq<string>, last: string)
    requires Alarming(h, a) && OneAdvisory(report, a) && Waives(h, today, ToRecord(exc), a)
    requires Printable(exc) && IsEol(eol) && Dressed(PrintAll([exc]), lines + Ending(last)) && AllOneLine(lines) && OneLine(last)
    ensures Runs(h, report, ToText(eol, lines) + last)
    ensures Passes(h, today, Parse(ReadLines(ToText(eol, lines) + last)).value, Findings(h.show, report).value)
  {
    OneRead(exc, eol, lines, last);
    OneAdvisoryRead(h, report, a);
    RecordWaived(h, today, ToRecord(exc), a);
  }
}

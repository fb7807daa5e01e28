/** Laws of the audit gate's verdict. */
module AuditVerdict {
  import opened AuditGate
  import opened AuditReport
  import opened ExceptionFile
  import opened Firsts
  import opened PyText
  import opened Wrappers

  // ---------------------------------------------------------------- order of the exceptions

  ghost predicate NoDup<T>(s: seq<T>) {
    forall i, j :: 0 <= i < j < |s| ==> s[i] != s[j]
  }

  lemma {:induction false} NoDupCounts<T>(s: seq<T>)
    ensures NoDup(s) <==> forall x <- s :: multiset(s)[x] == 1
    decreases |s|
  {
    if s != [] {
      var n := |s| - 1;
      var t, x := s[..n], s[n];
      assert s == t + [x];
      NoDupCounts(t);
      assert forall y :: y in s <==> y in t || y == x;
      if NoDup(s) {
        assert x !in t;
      }
      if forall y <- s :: multiset(s)[y] == 1 {
        assert multiset(s)[x] == multiset(t)[x] + 1;
        assert x !in t;
        assert forall y <- t :: multiset(s)[y] == multiset(t)[y];
      }
    }
  }

  lemma {:induction false} DistinctByMembers(h: Host, excs: seq<Record>)
    ensures DistinctKeys(h, excs) <==>
            NoDup(excs) && forall a, b :: a in excs && b in excs && KeyOf(h, a) == KeyOf(h, b) ==> a == b
  {
    if DistinctKeys(h, excs) {
      forall a, b | a in excs && b in excs && KeyOf(h, a) == KeyOf(h, b)
        ensures a == b
      {
        var i :| 0 <= i < |excs| && excs[i] == a;
        var j :| 0 <= j < |excs| && excs[j] == b;
      }
      assert NoDup(excs);
    }
  }

  /** The verdict does not depend on the order in which the exceptions are listed. */
  lemma {:induction false} ExceptionOrder(h: Host, today: int, excs: seq<Record>, reordered: seq<Record>, fs: seq<Finding>)
    requires AllReadable(h, fs) && multiset(excs) == multiset(reordered)
    ensures Passes(h, today, excs, fs) <==> Passes(h, today, reordered, fs)
  {
    assert forall e :: e in excs <==> e in multiset(excs);
    assert forall e :: e in reordered <==> e in multiset(reordered);
    NoDupCounts(excs);
    NoDupCounts(reordered);
    DistinctByMembers(h, excs);
    DistinctByMembers(h, reordered);
  }

  // ---------------------------------------------------------------- matching

  /** The text of a JSON value that is compared: nothing for null, a number through `show`. */
  function Text(h: Host, j: Json): string {
    match j
    case JNull => ""
    case JStr(s) => s
    case _ => h.show(j)
  }

  /** Both lines pad the same trimmed text. */
  ghost predicate SamePadded(a: string, b: string) {
    exists t :: Trimmed(t) && Pads(a, t) && Pads(b, t)
  }

  /** The line pads a trimmed text that has the given lower-case form. */
  ghost predicate Lowers(h: Host, s: string, lowered: string) {
    exists t :: Trimmed(t) && Pads(s, t) && h.lower(t) == lowered
  }

  lemma {:induction false} SamePaddedExact(a: string, b: string)
    ensures SamePadded(a, b) <==> Strip(a) == Strip(b)
  {
    StripExact(a, Strip(a));
    StripExact(b, Strip(b));
    if SamePadded(a, b) {
      var t :| Trimmed(t) && Pads(a, t) && Pads(b, t);
      StripExact(a, t);
      StripExact(b, t);
    }
  }

  lemma {:induction false} LowersExact(h: Host, s: string, lowered: string)
    ensures Lowers(h, s, lowered) <==> h.lower(Strip(s)) == lowered
  {
    StripExact(s, Strip(s));
    if Lowers(h, s, lowered) {
      var t :| Trimmed(t) && Pads(s, t) && h.lower(t) == lowered;
      StripExact(s, t);
    }
  }

  /** The same package name is padded on both sides, and so are two identifiers with the same lower-case form; a
      null identifier counts as an empty form. */
  ghost predicate SameUpToPaddingAndCase(h: Host, e: Record, f: Finding) {
    && SamePadded(Field(e, "package"), Text(h, f.name))
    && exists lowered ::
         Lowers(h, Field(e, "advisory"), lowered)
         && if f.advisory == JNull then lowered == "" else Lowers(h, Text(h, f.advisory), lowered)
  }

  /** An exception and a finding match exactly when their package names are equal up to padding, with case kept,
      and their advisory identifiers are equal up to padding and case, whether they are texts or numbers. */
  lemma {:induction false} MatchIgnoresPaddingAndCase(h: Host, e: Record, f: Finding)
    ensures KeyOf(h, e) == FindingKey(h, f) <==> SameUpToPaddingAndCase(h, e, f)
  {
    SamePackage(h, e, f.name);
    SameIdentifier(h, e, f.advisory);
  }

  lemma {:induction false} SamePackage(h: Host, e: Record, name: Json)
    ensures KeyOf(h, e).0 == NormPackage(h, name) <==> SamePadded(Field(e, "package"), Text(h, name))
  {
    SamePaddedExact(Field(e, "package"), Text(h, name));
    StripTrimmed("");
  }

  lemma {:induction false} SameIdentifier(h: Host, e: Record, id: Json)
    ensures KeyOf(h, e).1 == NormAdvisory(h, id) <==>
            exists lowered ::
              Lowers(h, Field(e, "advisory"), lowered)
              && if id == JNull then lowered == "" else Lowers(h, Text(h, id), lowered)
  {
    forall lowered
      ensures Lowers(h, Field(e, "advisory"), lowered) <==> lowered == KeyOf(h, e).1
      ensures id != JNull ==> (Lowers(h, Text(h, id), lowered) <==> lowered == NormAdvisory(h, id))
    {
      LowersExact(h, Field(e, "advisory"), lowered);
      LowersExact(h, Text(h, id), lowered);
    }
    assert Lowers(h, Field(e, "advisory"), KeyOf(h, e).1);
  }

  // ---------------------------------------------------------------- what counts

  /** The field is there and not empty. */
  predicate Filled(e: Record, field: string) {
    field in e && e[field] != ""
  }

  /** An exception counts exactly when its five required fields are filled, its date is a date, and neither its
      package nor its advisory is blank. */
  lemma {:induction false} WellFormedExact(h: Host, e: Record)
    ensures WellFormed(h, e) <==>
            && Filled(e, "package") && Filled(e, "advisory") && Filled(e, "severity") && Filled(e, "mitigation")
            && Filled(e, "expires_on") && h.parseDate(e["expires_on"]).Some?
            && !Pads(e["package"], "") && !Lowers(h, e["advisory"], "")
  {
    var fields := REQUIRED_FIELDS;
    assert fields[0] in fields && fields[1] in fields && fields[2] in fields && fields[3] in fields && fields[4] in fields;
    assert HasRequired(e) <==>
           && Filled(e, "package") && Filled(e, "advisory") && Filled(e, "severity") && Filled(e, "mitigation") && Filled(e, "expires_on");
    StripExact(Field(e, "package"), "");
    LowersExact(h, Field(e, "advisory"), "");
  }

  /** A finding counts exactly when it has a name and its severity is high or critical up to padding and case; a
      true severity that is no text makes the gate raise. */
  lemma {:induction false} RelevantExact(h: Host, f: Finding)
    ensures Readable(h, f) <==> !Truthy(f.severity) || f.severity.JStr?
    ensures Readable(h, f) ==>
      (Relevant(h, f) <==>
        && Truthy(f.name) && f.severity.JStr? && f.severity.s != ""
        && (Lowers(h, f.severity.s, "high") || Lowers(h, f.severity.s, "critical")))
  {
    if f.severity.JStr? {
      LowersExact(h, f.severity.s, "high");
      LowersExact(h, f.severity.s, "critical");
    }
  }

  /** A well-formed exception excuses a finding with its key up to and including its date, and agrees with it when
      the severities are equal up to padding and case, or when its own severity has no lower-case form. */
  lemma {:induction false} ExcuseExact(h: Host, today: int, e: Record, f: Finding)
    requires WellFormed(h, e) && Readable(h, f) && Relevant(h, f)
    ensures Excuses(h, today, e, f) <==> KeyOf(h, e) == FindingKey(h, f) && today <= h.parseDate(e["expires_on"]).value
    ensures KeyOf(h, e) == FindingKey(h, f) ==>
      (Agrees(h, e, f) <==>
        Lowers(h, e["severity"], "") || exists lowered :: Lowers(h, e["severity"], lowered) && Lowers(h, f.severity.s, lowered))
  {
    WellFormedExact(h, e);
    RelevantExact(h, f);
    LowersExact(h, e["severity"], "");
    forall lowered
      ensures Lowers(h, e["severity"], lowered) <==> lowered == h.lower(Strip(e["severity"]))
      ensures Lowers(h, f.severity.s, lowered) <==> lowered == Severity(h, f)
    {
      LowersExact(h, e["severity"], lowered);
      LowersExact(h, f.severity.s, lowered);
    }
    assert Lowers(h, f.severity.s, Severity(h, f));
  }

  // ---------------------------------------------------------------- other reports of the same vulnerabilities

  /** What the gate looks at in two findings is the same. */
  ghost predicate LooksTheSame(h: Host, f: Finding, g: Finding)
    requires Readable(h, f) && Readable(h, g)
  {
    && FindingKey(h, f) == FindingKey(h, g) && Severity(h, f) == Severity(h, g)
    && (Truthy(f.name) <==> Truthy(g.name))
  }

  /** The verdict looks at nothing else. */
  lemma {:induction false} LooksDecide(h: Host, today: int, excs: seq<Record>, fs: seq<Finding>, gs: seq<Finding>)
    requires AllReadable(h, fs) && AllReadable(h, gs) && |fs| == |gs|
    requires forall i :: 0 <= i < |fs| ==> LooksTheSame(h, fs[i], gs[i])
    ensures Passes(h, today, excs, fs) <==> Passes(h, today, excs, gs)
  {
    LooksDecideOne(h, today, excs, fs, gs);
    LooksDecideOne(h, today, excs, gs, fs);
  }

  lemma {:induction false} LooksDecideOne(h: Host, today: int, excs: seq<Record>, fs: seq<Finding>, gs: seq<Finding>)
    requires AllReadable(h, fs) && AllReadable(h, gs) && |fs| == |gs|
    requires forall i :: 0 <= i < |fs| ==> LooksTheSame(h, fs[i], gs[i])
    ensures Passes(h, today, excs, fs) ==> Passes(h, today, excs, gs)
  {
    if Passes(h, today, excs, fs) {
      forall g | g in gs && Relevant(h, g)
        ensures FindingKey(h, g).1 != "" && Excused(h, today, excs, g)
      {
        var i :| 0 <= i < |gs| && gs[i] == g;
        assert fs[i] in fs && Relevant(h, fs[i]);
        var e :| e in excs && Excuses(h, today, e, fs[i]);
        assert Excuses(h, today, e, g);
      }
      forall j | 0 <= j < |gs| && Relevant(h, gs[j]) && FirstOfKey(h, gs, j)
        ensures forall e <- excs :: Agrees(h, e, gs[j])
      {
        assert FirstOfKey(h, fs, j);
        assert forall e <- excs :: Agrees(h, e, fs[j]);
      }
    }
  }

  /** Two reports that agree, record by record, on package, severity and the identifiers down to the first one
      that decides get the same verdict when both can be read: titles, texts and less preferred identifiers may
      change between runs of the audit without turning a covered vulnerability into a new one. The later report
      cannot be read exactly when the titles of some `via` list cannot be joined. */
  lemma {:induction false} StableVerdict(h: Host, today: int, text: string, report: Json, later: Json)
    requires SameVulnerabilities(h.show, report, later) && Runs(h, report, text)
    ensures Runs(h, later, text) <==> forall e :: Listed(Get(later, "vulnerabilities"), e) ==> !VulnRaises(e.1)
    ensures Runs(h, later, text) ==>
      (Passes(h, today, Parse(ReadLines(text)).value, Findings(h.show, report).value) <==>
       Passes(h, today, Parse(ReadLines(text)).value, Findings(h.show, later).value))
  {
    StableFindings(h.show, report, later);
  }

  // ---------------------------------------------------------------- time

  /** Passing on a day implies passing on every earlier day, and an exception still holds on its last day:
      a verdict that changes from pass to fail can only have been caused by a date strictly in the past. */
  lemma {:induction false} OnlyExpiryFails(h: Host, earlier: int, today: int, excs: seq<Record>, fs: seq<Finding>)
    requires AllReadable(h, fs) && earlier <= today
    ensures Passes(h, today, excs, fs) ==> Passes(h, earlier, excs, fs)
    ensures Passes(h, earlier, excs, fs) && !Passes(h, today, excs, fs) ==>
      exists f <- fs :: exists e <- excs :: RunsOut(h, earlier, today, e, f)
  {
    if Usable(h, excs) {
      forall f | f in fs
        ensures Excused(h, today, excs, f) ==> Excused(h, earlier, excs, f)
        ensures Excused(h, earlier, excs, f) && !Excused(h, today, excs, f) ==>
          exists e <- excs :: RunsOut(h, earlier, today, e, f)
      {
        ExcusedEarlier(h, earlier, today, excs, f);
      }
    }
  }

  ghost predicate RunsOut(h: Host, earlier: int, today: int, e: Record, f: Finding) {
    KeyOf(h, e) == FindingKey(h, f) && earlier <= Compiled(h, e).expires < today
  }

  lemma {:induction false} ExcusedEarlier(h: Host, earlier: int, today: int, excs: seq<Record>, f: Finding)
    requires AllWellFormed(h, excs) && earlier <= today
    ensures Excused(h, today, excs, f) ==> Excused(h, earlier, excs, f)
    ensures Excused(h, earlier, excs, f) && !Excused(h, today, excs, f) ==>
      exists e <- excs :: RunsOut(h, earlier, today, e, f)
  {
    if Excused(h, today, excs, f) {
      var e :| e in excs && Excuses(h, today, e, f);
      assert Excuses(h, earlier, e, f);
    } else if Excused(h, earlier, excs, f) {
      var e :| e in excs && Excuses(h, earlier, e, f);
      assert !Excuses(h, today, e, f);
    }
  }

  // ---------------------------------------------------------------- more findings, other orders

  /** Appending findings never turns a failing run into a passing one. */
  lemma {:induction false} MoreFindings(h: Host, today: int, excs: seq<Record>, fs: seq<Finding>, more: seq<Finding>)
    requires AllReadable(h, fs + more)
    ensures AllReadable(h, fs)
    ensures Passes(h, today, excs, fs + more) ==> Passes(h, today, excs, fs)
  {
    var all := fs + more;
    assert forall f <- fs :: f in all;
    assert forall j :: 0 <= j < |fs| ==> all[j] == fs[j];
    if Passes(h, today, excs, all) {
      forall j | 0 <= j < |fs| && Relevant(h, fs[j]) && FirstOfKey(h, fs, j)
        ensures forall e <- excs :: Agrees(h, e, fs[j])
      {
        assert FirstOfKey(h, all, j);
      }
    }
  }

  /** Every relevant finding agrees with its exception's severity, not only the first one of each key. */
  ghost predicate AllAgree(h: Host, excs: seq<Record>, fs: seq<Finding>)
    requires AllReadable(h, fs) && AllWellFormed(h, excs)
  {
    forall f <- fs :: Relevant(h, f) ==> forall e <- excs :: Agrees(h, e, f)
  }

  ghost predicate HasException(h: Host, excs: seq<Record>, f: Finding) {
    exists e <- excs :: KeyOf(h, e) == FindingKey(h, f) && Compiled(h, e).severity != ""
  }

  /** Findings that share a key which some exception gives a severity to also share their severity. */
  ghost predicate Consistent(h: Host, excs: seq<Record>, fs: seq<Finding>)
    requires AllReadable(h, fs)
  {
    forall f, g | f in fs && g in fs && Relevant(h, f) && Relevant(h, g) && FindingKey(h, f) == FindingKey(h, g) ::
      HasException(h, excs, f) ==> Severity(h, f) == Severity(h, g)
  }

  lemma {:induction false} FirstWithKey(h: Host, fs: seq<Finding>, n: nat) returns (j: nat)
    requires AllReadable(h, fs) && n < |fs| && Relevant(h, fs[n])
    ensures j <= n && Relevant(h, fs[j]) && FindingKey(h, fs[j]) == FindingKey(h, fs[n]) && FirstOfKey(h, fs, j)
  {
    j := FirstAt(RelevantTo(h), KeyIn(h), fs, n);
    assert forall i :: 0 <= i < j ==> RelevantTo(h)(fs[i]) == Relevant(h, fs[i]) && KeyIn(h)(fs[i]) == FindingKey(h, fs[i]);
  }

  /** De-duplication looks at one severity per key. What a passing run says about all severities: they agree
      with the exceptions exactly when the findings are consistent. */
  lemma {:induction false} SeverityExact(h: Host, today: int, excs: seq<Record>, fs: seq<Finding>)
    requires AllReadable(h, fs) && Passes(h, today, excs, fs)
    ensures AllAgree(h, excs, fs) <==> Consistent(h, excs, fs)
  {
    if AllAgree(h, excs, fs) {
      forall f, g | f in fs && g in fs && Relevant(h, f) && Relevant(h, g) && FindingKey(h, f) == FindingKey(h, g)
        && HasException(h, excs, f)
        ensures Severity(h, f) == Severity(h, g)
      {
        var e :| e in excs && KeyOf(h, e) == FindingKey(h, f) && Compiled(h, e).severity != "";
        assert Agrees(h, e, f) && Agrees(h, e, g);
      }
    }
    if Consistent(h, excs, fs) {
      forall f, e | f in fs && Relevant(h, f) && e in excs
        ensures Agrees(h, e, f)
      {
        var n :| 0 <= n < |fs| && fs[n] == f;
        var j := FirstWithKey(h, fs, n);
        assert Agrees(h, e, fs[j]);
      }
    }
  }

  /** With consistent findings the verdict needs no order at all. */
  lemma {:induction false} ConsistentPasses(h: Host, today: int, excs: seq<Record>, fs: seq<Finding>)
    requires AllReadable(h, fs) && Consistent(h, excs, fs)
    ensures Passes(h, today, excs, fs) <==>
            && Usable(h, excs)
            && (forall f <- fs :: Relevant(h, f) ==>
                  FindingKey(h, f).1 != "" && Excused(h, today, excs, f))
            && AllAgree(h, excs, fs)
  {
    if Passes(h, today, excs, fs) {
      SeverityExact(h, today, excs, fs);
    }
  }

  // ---------------------------------------------------------------- the order of the findings

  ghost function RelevantTo(h: Host): Finding -> bool {
    (f: Finding) => Readable(h, f) && Relevant(h, f)
  }

  ghost function KeyIn(h: Host): Finding -> Key {
    (f: Finding) => FindingKey(h, f)
  }

  ghost function AgreesWithAll(h: Host, excs: seq<Record>): Finding -> bool {
    (f: Finding) => AllWellFormed(h, excs) && Readable(h, f) && forall e <- excs :: Agrees(h, e, f)
  }

  /** A relevant finding that fails every run: it has no identifier, or no current exception. */
  ghost predicate Uncovered(h: Host, today: int, excs: seq<Record>, f: Finding)
    requires AllWellFormed(h, excs) && Readable(h, f)
  {
    Relevant(h, f) && (FindingKey(h, f).1 == "" || !Excused(h, today, excs, f))
  }

  ghost predicate SomeUncovered(h: Host, today: int, excs: seq<Record>, fs: seq<Finding>)
    requires AllWellFormed(h, excs) && AllReadable(h, fs)
  {
    exists f <- fs :: Uncovered(h, today, excs, f)
  }

  /** Only the severities are judged by the first finding of each key. */
  lemma {:induction false} PassesByFirsts(h: Host, today: int, excs: seq<Record>, fs: seq<Finding>)
    requires AllReadable(h, fs)
    ensures Passes(h, today, excs, fs) <==>
            && Usable(h, excs) && !SomeUncovered(h, today, excs, fs)
            && FirstsGood(RelevantTo(h), KeyIn(h), AgreesWithAll(h, excs), fs)
  {
    forall j | 0 <= j < |fs|
      ensures Relevant(h, fs[j]) && FirstOfKey(h, fs, j) <==> IsFirst(RelevantTo(h), KeyIn(h), fs, j)
    {
      assert forall i :: 0 <= i < |fs| ==> RelevantTo(h)(fs[i]) == Relevant(h, fs[i]) && KeyIn(h)(fs[i]) == FindingKey(h, fs[i]);
    }
    if Usable(h, excs) {
      assert forall f <- fs :: AgreesWithAll(h, excs)(f) <==> forall e <- excs :: Agrees(h, e, f);
      assert forall j :: 0 <= j < |fs| ==> fs[j] in fs;
    }
  }

  /** The verdict is the same in every order. */
  ghost predicate VerdictOrderFree(h: Host, today: int, excs: seq<Record>, fs: seq<Finding>)
    requires AllReadable(h, fs)
  {
    forall r: seq<Finding> :: multiset(r) == multiset(fs) ==>
      AllReadable(h, r) && (Passes(h, today, excs, r) <==> Passes(h, today, excs, fs))
  }

  ghost predicate Disagrees(h: Host, excs: seq<Record>, f: Finding)
    requires AllWellFormed(h, excs) && Readable(h, f)
  {
    exists e <- excs :: !Agrees(h, e, f)
  }

  /** Of the relevant findings that share this one's key, none agrees with the exceptions. */
  ghost predicate NoneAgrees(h: Host, excs: seq<Record>, fs: seq<Finding>, f: Finding)
    requires AllReadable(h, fs) && AllWellFormed(h, excs) && f in fs
  {
    Relevant(h, f) && forall g <- fs :: Relevant(h, g) && FindingKey(h, g) == FindingKey(h, f) ==> Disagrees(h, excs, g)
  }

  lemma {:induction false} OrderCondition(h: Host, today: int, excs: seq<Record>, fs: seq<Finding>)
    requires AllReadable(h, fs)
    ensures VerdictOrderFree(h, today, excs, fs) <==>
            || !Usable(h, excs)
            || SomeUncovered(h, today, excs, fs)
            || AllAgree(h, excs, fs)
            || exists f <- fs :: NoneAgrees(h, excs, fs, f)
  {
    var rel, key, good := RelevantTo(h), KeyIn(h), AgreesWithAll(h, excs);
    forall r: seq<Finding> | multiset(r) == multiset(fs)
      ensures AllReadable(h, r)
      ensures Passes(h, today, excs, r) <==>
              Usable(h, excs) && !SomeUncovered(h, today, excs, fs) && FirstsGood(rel, key, good, r)
    {
      SameMembers(r, fs);
      PassesByFirsts(h, today, excs, r);
    }
    PassesByFirsts(h, today, excs, fs);
    if Usable(h, excs) && !SomeUncovered(h, today, excs, fs) {
      OrderFreeExact(rel, key, good, fs);
      assert VerdictOrderFree(h, today, excs, fs) <==> OrderFree(rel, key, good, fs);
      GoodMeansAgrees(h, excs, fs);
    }
  }

  lemma {:induction false} GoodMeansAgrees(h: Host, excs: seq<Record>, fs: seq<Finding>)
    requires AllReadable(h, fs) && AllWellFormed(h, excs)
    ensures AllGood(RelevantTo(h), AgreesWithAll(h, excs), fs) <==> AllAgree(h, excs, fs)
    ensures SomeKeyBad(RelevantTo(h), KeyIn(h), AgreesWithAll(h, excs), fs) <==> exists f <- fs :: NoneAgrees(h, excs, fs, f)
  {
    forall f | f in fs
      ensures RelevantTo(h)(f) <==> Relevant(h, f)
      ensures AgreesWithAll(h, excs)(f) <==> !Disagrees(h, excs, f)
      ensures KeyBad(RelevantTo(h), KeyIn(h), AgreesWithAll(h, excs), fs, f) <==> NoneAgrees(h, excs, fs, f)
    {
      KeyBadMeans(h, excs, fs, f);
    }
    assert AllAgree(h, excs, fs) <==> forall f <- fs :: Relevant(h, f) ==> !Disagrees(h, excs, f);
  }

  lemma {:induction false} KeyBadMeans(h: Host, excs: seq<Record>, fs: seq<Finding>, f: Finding)
    requires AllReadable(h, fs) && AllWellFormed(h, excs) && f in fs
    ensures KeyBad(RelevantTo(h), KeyIn(h), AgreesWithAll(h, excs), fs, f) <==> NoneAgrees(h, excs, fs, f)
  {
    forall g | g in fs
      ensures RelevantTo(h)(g) <==> Relevant(h, g)
      ensures KeyIn(h)(g) == FindingKey(h, g)
      ensures AgreesWithAll(h, excs)(g) <==> !Disagrees(h, excs, g)
    {
    }
  }

  lemma {:induction false} ConsistentDisagree(h: Host, excs: seq<Record>, fs: seq<Finding>, f: Finding)
    requires AllReadable(h, fs) && AllWellFormed(h, excs) && Consistent(h, excs, fs)
    requires f in fs && Relevant(h, f) && Disagrees(h, excs, f)
    ensures NoneAgrees(h, excs, fs, f)
  {
    var e :| e in excs && !Agrees(h, e, f);
    assert HasException(h, excs, f);
    forall g | g in fs && Relevant(h, g) && FindingKey(h, g) == FindingKey(h, f)
      ensures Disagrees(h, excs, g)
    {
      assert !Agrees(h, e, g);
    }
  }

  /** When the order of the findings matters: exactly when the exceptions are usable and cover every relevant
      finding, some relevant finding disagrees, and each key that has one also has a finding that agrees. In
      particular it never matters for consistent findings. */
  lemma {:induction false} OrderExact(h: Host, today: int, excs: seq<Record>, fs: seq<Finding>)
    requires AllReadable(h, fs)
    ensures VerdictOrderFree(h, today, excs, fs) <==>
            || !Usable(h, excs)
            || SomeUncovered(h, today, excs, fs)
            || AllAgree(h, excs, fs)
            || exists f <- fs :: NoneAgrees(h, excs, fs, f)
    ensures Consistent(h, excs, fs) ==> VerdictOrderFree(h, today, excs, fs)
  {
    OrderCondition(h, today, excs, fs);
    if Consistent(h, excs, fs) && Usable(h, excs) && !AllAgree(h, excs, fs) {
      assert exists f <- fs :: Relevant(h, f) && Disagrees(h, excs, f);
      var f :| f in fs && Relevant(h, f) && Disagrees(h, excs, f);
      ConsistentDisagree(h, excs, fs, f);
    }
  }

  /** The order can decide: under a "high" exception that has not run out, a high and a critical finding of the
      same advisory pass in this order and fail in the other. */
  lemma {:induction false} OrderCanDecide(h: Host, today: int, day: int)
    requires h.lower("x") == "x" && h.lower("high") == "high" && h.lower("critical") == "critical"
    requires h.parseDate("2030-01-01") == Some(day) && today <= day
    ensures AllReadable(h, [HIGH, CRITICAL]) && AllReadable(h, [CRITICAL, HIGH])
    ensures Passes(h, today, [EXCEPTION], [HIGH, CRITICAL]) && !Passes(h, today, [EXCEPTION], [CRITICAL, HIGH])
  {
    ExampleException(h, day);
    ExampleFindings(h);
    OneKey(h, today, EXCEPTION, HIGH, CRITICAL);
    OneKey(h, today, EXCEPTION, CRITICAL, HIGH);
  }

  /** Two findings of one key under one current exception: the first decides. */
  lemma {:induction false} OneKey(h: Host, today: int, e: Record, a: Finding, b: Finding)
    requires WellFormed(h, e) && Readable(h, a) && Readable(h, b) && Relevant(h, a) && Relevant(h, b)
    requires KeyOf(h, e) == FindingKey(h, a) == FindingKey(h, b) && today <= Compiled(h, e).expires
    ensures AllReadable(h, [a, b])
    ensures Passes(h, today, [e], [a, b]) <==> Agrees(h, e, a)
  {
    PassesByFirsts(h, today, [e], [a, b]);
    Covering(h, today, e, [a, b]);
    FirstOfTwo(RelevantTo(h), KeyIn(h), AgreesWithAll(h, [e]), a, b);
  }

  lemma {:induction false} Covering(h: Host, today: int, e: Record, fs: seq<Finding>)
    requires WellFormed(h, e) && AllReadable(h, fs) && today <= Compiled(h, e).expires
    requires forall f <- fs :: FindingKey(h, f) == KeyOf(h, e)
    ensures Usable(h, [e]) && !SomeUncovered(h, today, [e], fs)
    ensures forall f <- fs :: AgreesWithAll(h, [e])(f) <==> Agrees(h, e, f)
  {
    assert e in [e];
    forall f | f in fs
      ensures !Uncovered(h, today, [e], f)
    {
      assert Excuses(h, today, e, f);
    }
  }

  const EXCEPTION: Record :=
    map["package" := "p", "advisory" := "x", "severity" := "high", "mitigation" := "m", "expires_on" := "2030-01-01"]
  const HIGH := Finding(JStr("p"), JStr("high"), JStr("x"))
  const CRITICAL := Finding(JStr("p"), JStr("critical"), JStr("x"))

  lemma ExampleException(h: Host, day: int)
    requires h.lower("x") == "x" && h.lower("high") == "high" && h.parseDate("2030-01-01") == Some(day)
    ensures WellFormed(h, EXCEPTION) && KeyOf(h, EXCEPTION) == ("p", "x")
    ensures Compiled(h, EXCEPTION) == Indexed("high", day)
  {
    StripTrimmed("p");
    StripTrimmed("x");
    StripTrimmed("high");
  }

  lemma ExampleFindings(h: Host)
    requires h.lower("x") == "x" && h.lower("high") == "high" && h.lower("critical") == "critical"
    ensures Readable(h, HIGH) && Severity(h, HIGH) == "high"
    ensures Readable(h, CRITICAL) && Severity(h, CRITICAL) == "critical"
    ensures FindingKey(h, HIGH) == FindingKey(h, CRITICAL) == ("p", "x")
  {
    StripTrimmed("p");
    StripTrimmed("x");
    StripTrimmed("high");
    StripTrimmed("critical");
  }
}

/** The decision of the audit tool (`main` of sub2api/tools/check_pnpm_audit_exceptions.py). */
module AuditGate {
  import opened AuditReport
  import opened ExceptionFile
  import opened PyText
  import opened Wrappers

  /** What the tool takes from its surroundings: Unicode lower-casing, `str` of a JSON value that is not a
      string, and reading an ISO 8601 calendar date as a day number. */
  datatype Host = Host(lower: string -> string, show: Json -> string, parseDate: string -> Option<int>)

  type Key = (string, string)

  datatype Outcome = Exit(code: int) | Raised

  datatype Indexed = Indexed(severity: string, expires: int)

  /** `normalize_severity`; None when it raises, on a true value that is not a string. */
  function NormSeverity(h: Host, j: Json): Option<string> {
    if !Truthy(j) then Some("")
    else if j.JStr? then Some(h.lower(Strip(j.s)))
    else None
  }

  function NormPackage(h: Host, j: Json): string {
    if j == JNull then "" else Strip(Str(h.show, j))
  }

  function NormAdvisory(h: Host, j: Json): string {
    if j == JNull then "" else h.lower(Strip(Str(h.show, j)))
  }

  // ---------------------------------------------------------------- exceptions

  /** `e.get(field)`, with the empty string for a missing field: both are false. */
  function Field(e: Record, field: string): string {
    if field in e then e[field] else ""
  }

  const REQUIRED_FIELDS := ["package", "advisory", "severity", "mitigation", "expires_on"]

  predicate HasRequired(e: Record) {
    forall field <- REQUIRED_FIELDS :: Field(e, field) != ""
  }

  function KeyOf(h: Host, e: Record): Key {
    (Strip(Field(e, "package")), h.lower(Strip(Field(e, "advisory"))))
  }

  predicate WellFormed(h: Host, e: Record) {
    && HasRequired(e)
    && h.parseDate(Field(e, "expires_on")).Some?
    && KeyOf(h, e).0 != "" && KeyOf(h, e).1 != ""
  }

  /** What the index stores for a well-formed exception. */
  function Compiled(h: Host, e: Record): Indexed {
    match h.parseDate(Field(e, "expires_on"))
    case Some(day) => Indexed(h.lower(Strip(Field(e, "severity"))), day)
    case None => Indexed("", 0)
  }

  ghost predicate AllWellFormed(h: Host, excs: seq<Record>) {
    forall e <- excs :: WellFormed(h, e)
  }

  ghost predicate DistinctKeys(h: Host, excs: seq<Record>) {
    forall i, j :: 0 <= i < j < |excs| ==> KeyOf(h, excs[i]) != KeyOf(h, excs[j])
  }

  ghost predicate Usable(h: Host, excs: seq<Record>) {
    AllWellFormed(h, excs) && DistinctKeys(h, excs)
  }

  /** The index holds a key exactly when one of the first n exceptions is well formed and has it, and then
      the data of such an exception. */
  ghost predicate Indexes(h: Host, excs: seq<Record>, n: nat, index: map<Key, Indexed>)
    requires n <= |excs|
  {
    Complete(h, excs, n, index) && exists at :: Sound(h, excs, n, index, at)
  }

  ghost predicate Complete(h: Host, excs: seq<Record>, n: nat, index: map<Key, Indexed>)
    requires n <= |excs|
  {
    forall i :: 0 <= i < n && WellFormed(h, excs[i]) ==> KeyOf(h, excs[i]) in index
  }

  /** Each key was indexed from the exception at position at[key]. */
  ghost predicate Sound(h: Host, excs: seq<Record>, n: nat, index: map<Key, Indexed>, at: map<Key, nat>)
    requires n <= |excs|
  {
    Traced(HoldsFor(h), excs, n, index, at)
  }

  ghost function HoldsFor(h: Host): (Record, Key, Indexed) -> bool {
    (e: Record, k: Key, data: Indexed) => WellFormed(h, e) && KeyOf(h, e) == k && Compiled(h, e) == data
  }

  /** Every entry of the index holds of the element it is traced to. */
  ghost predicate Traced<E, K, V>(holds: (E, K, V) -> bool, xs: seq<E>, n: nat, index: map<K, V>, at: map<K, nat>)
    requires n <= |xs|
  {
    at.Keys == index.Keys && forall k <- at :: at[k] < n && holds(xs[at[k]], k, index[k])
  }

  lemma TracedPut<E, K, V>(holds: (E, K, V) -> bool, xs: seq<E>, n: nat, index: map<K, V>, at: map<K, nat>, k: K, v: V)
    requires n < |xs| && Traced(holds, xs, n, index, at)
    ensures Traced(holds, xs, n + 1, index, at)
    ensures holds(xs[n], k, v) ==> Traced(holds, xs, n + 1, index[k := v], at[k := n])
  {
  }

  ghost predicate UsableTo(h: Host, excs: seq<Record>, n: nat)
    requires n <= |excs|
  {
    DistinctTo((e: Record) => WellFormed(h, e), (e: Record) => KeyOf(h, e), excs, n)
  }

  /** The first n elements are all good, and no two of them have the same key. */
  ghost predicate DistinctTo<E, K>(good: E -> bool, key: E -> K, xs: seq<E>, n: nat)
    requires n <= |xs|
  {
    && (forall i :: 0 <= i < n ==> good(xs[i]))
    && (forall i, j :: 0 <= i < j < n ==> key(xs[i]) != key(xs[j]))
  }

  lemma DistinctNext<E, K>(good: E -> bool, key: E -> K, xs: seq<E>, n: nat, keys: set<K>)
    requires n < |xs|
    requires forall i :: 0 <= i < n && good(xs[i]) ==> key(xs[i]) in keys
    requires forall k <- keys :: exists i :: 0 <= i < n && key(xs[i]) == k
    ensures DistinctTo(good, key, xs, n + 1) <==> DistinctTo(good, key, xs, n) && good(xs[n]) && key(xs[n]) !in keys
  {
  }

  lemma UsableAll(h: Host, excs: seq<Record>)
    ensures UsableTo(h, excs, |excs|) <==> Usable(h, excs)
  {
    assert AllWellFormed(h, excs) <==> forall i :: 0 <= i < |excs| ==> WellFormed(h, excs[i]);
  }

  /** The first loop of `main`: index the exceptions, counting every entry that is not usable. */
  method BuildIndex(h: Host, excs: seq<Record>) returns (index: map<Key, Indexed>, errors: nat)
    ensures Indexes(h, excs, |excs|, index)
    ensures errors == 0 <==> Usable(h, excs)
  {
    index, errors := map[], 0;
    ghost var at: map<Key, nat> := map[];
    for i := 0 to |excs|
      invariant Complete(h, excs, i, index) && Sound(h, excs, i, index, at)
      invariant errors == 0 <==> UsableTo(h, excs, i)
    {
      var e := excs[i];
      UsableNext(h, excs, i, index, at);
      TracedPut(HoldsFor(h), excs, i, index, at, KeyOf(h, e), Compiled(h, e));
      if !WellFormed(h, e) {
        errors := errors + 1;
      } else if KeyOf(h, e) in index {
        errors := errors + 1;
      } else {
        CompleteNext(h, excs, i, index, Compiled(h, e));
        index, at := index[KeyOf(h, e) := Compiled(h, e)], at[KeyOf(h, e) := i];
      }
    }
    UsableAll(h, excs);
  }

  /** The next exception is usable exactly when it is well formed and its key is not indexed yet. */
  lemma {:induction false} UsableNext(h: Host, excs: seq<Record>, n: nat, index: map<Key, Indexed>, at: map<Key, nat>)
    requires n < |excs| && Complete(h, excs, n, index) && Sound(h, excs, n, index, at)
    ensures UsableTo(h, excs, n + 1) <==>
            UsableTo(h, excs, n) && WellFormed(h, excs[n]) && KeyOf(h, excs[n]) !in index
  {
    var good, key := (e: Record) => WellFormed(h, e), (e: Record) => KeyOf(h, e);
    forall k | k in index.Keys
      ensures exists i :: 0 <= i < n && key(excs[i]) == k
    {
      assert k in at && HoldsFor(h)(excs[at[k]], k, index[k]);
    }
    DistinctNext(good, key, excs, n, index.Keys);
    assert UsableTo(h, excs, n) <==> DistinctTo(good, key, excs, n);
    assert UsableTo(h, excs, n + 1) <==> DistinctTo(good, key, excs, n + 1);
  }

  lemma {:induction false} CompleteNext(h: Host, excs: seq<Record>, n: nat, index: map<Key, Indexed>, data: Indexed)
    requires n < |excs| && Complete(h, excs, n, index)
    ensures Complete(h, excs, n + 1, index[KeyOf(h, excs[n]) := data])
  {
  }

  // ---------------------------------------------------------------- findings

  predicate Readable(h: Host, f: Finding) {
    NormSeverity(h, f.severity).Some?
  }

  function Severity(h: Host, f: Finding): string
    requires Readable(h, f)
  {
    NormSeverity(h, f.severity).value
  }

  /** High or critical, and named. */
  predicate Relevant(h: Host, f: Finding)
    requires Readable(h, f)
  {
    Severity(h, f) in {"high", "critical"} && Truthy(f.name)
  }

  function FindingKey(h: Host, f: Finding): Key {
    (NormPackage(h, f.name), NormAdvisory(h, f.advisory))
  }

  ghost predicate AllReadable(h: Host, fs: seq<Finding>) {
    forall f <- fs :: Readable(h, f)
  }

  /** No earlier relevant finding has the same key. */
  ghost predicate FirstOfKey(h: Host, fs: seq<Finding>, j: nat)
    requires AllReadable(h, fs) && j < |fs|
  {
    forall i :: 0 <= i < j && Relevant(h, fs[i]) ==> FindingKey(h, fs[i]) != FindingKey(h, fs[j])
  }

  predicate Current(index: map<Key, Indexed>, k: Key, today: int) {
    k in index && today <= index[k].expires
  }

  predicate SeverityFits(index: map<Key, Indexed>, k: Key, sev: string) {
    k in index && index[k].severity != "" ==> index[k].severity == sev
  }

  ghost predicate Covered(h: Host, today: int, index: map<Key, Indexed>, f: Finding)
    requires Readable(h, f)
  {
    Relevant(h, f) ==> FindingKey(h, f).1 != "" && Current(index, FindingKey(h, f), today)
  }

  ghost predicate Fits(h: Host, index: map<Key, Indexed>, f: Finding)
    requires Readable(h, f)
  {
    Relevant(h, f) ==> SeverityFits(index, FindingKey(h, f), Severity(h, f))
  }

  ghost predicate Cleared(h: Host, today: int, index: map<Key, Indexed>, fs: seq<Finding>)
    requires AllReadable(h, fs)
  {
    && (forall f <- fs :: Covered(h, today, index, f))
    && (forall j :: 0 <= j < |fs| && FirstOfKey(h, fs, j) ==> Fits(h, index, fs[j]))
  }

  /** The second loop of `main`. None when a severity cannot be normalised; otherwise the number of
      complaints, that is of errors, missing exceptions and expired exceptions. */
  method CheckFindings(h: Host, today: int, index: map<Key, Indexed>, fs: seq<Finding>) returns (r: Option<nat>)
    ensures r == None <==> !AllReadable(h, fs)
    ensures r.Some? ==> (r.value == 0 <==> Cleared(h, today, index, fs))
  {
    var errors, missing, expired: nat := 0, 0, 0;
    var seen: set<Key> := {};
    for i := 0 to |fs|
      invariant AllReadable(h, fs[..i])
      invariant seen == SeenKeys(h, fs[..i])
      invariant errors + missing + expired == 0 <==> Cleared(h, today, index, fs[..i])
    {
      var f := fs[i];
      var sev := NormSeverity(h, f.severity);
      if sev.None? {
        assert !Readable(h, fs[i]);
        return None;
      }
      assert fs[..i + 1] == fs[..i] + [f];
      AllReadableSnoc(h, fs[..i], f);
      ClearedStep(h, today, index, fs[..i], f);
      if sev.value !in {"high", "critical"} || !Truthy(f.name) {
        continue;
      }
      var advisoryKey := NormAdvisory(h, f.advisory);
      if advisoryKey == "" {
        errors := errors + 1;
        continue;
      }
      var key := (NormPackage(h, f.name), advisoryKey);
      if key in seen {
        continue;
      }
      seen := seen + {key};
      if key !in index {
        missing := missing + 1;
        continue;
      }
      if index[key].severity != "" && index[key].severity != sev.value {
        errors := errors + 1;
      }
      if index[key].expires < today {
        expired := expired + 1;
      }
    }
    assert fs[..|fs|] == fs;
    return Some(errors + missing + expired);
  }

  ghost predicate Repeats(h: Host, fs: seq<Finding>, f: Finding)
    requires AllReadable(h, fs)
  {
    exists x <- fs :: Relevant(h, x) && FindingKey(h, x) == FindingKey(h, f)
  }

  /** One more finding: it must be excused, and its severity counts only when its key is new. */
  lemma {:induction false} ClearedSnoc(h: Host, today: int, index: map<Key, Indexed>, fs: seq<Finding>, f: Finding)
    requires AllReadable(h, fs) && Readable(h, f)
    ensures AllReadable(h, fs + [f])
    ensures Cleared(h, today, index, fs + [f]) <==>
            && Cleared(h, today, index, fs)
            && Covered(h, today, index, f)
            && (!Repeats(h, fs, f) ==> Fits(h, index, f))
  {
    var all := fs + [f];
    assert forall x :: x in all <==> x in fs || x == f;
    assert forall j :: 0 <= j < |fs| ==> all[j] == fs[j];
    assert all[|fs|] == f;
    forall j | 0 <= j < |fs|
      ensures FirstOfKey(h, all, j) <==> FirstOfKey(h, fs, j)
    {
    }
    FirstMeansNew(h, fs, f);
    if Cleared(h, today, index, all) {
      forall j | 0 <= j < |fs| && FirstOfKey(h, fs, j)
        ensures Fits(h, index, fs[j])
      {
        assert FirstOfKey(h, all, j);
      }
    }
  }

  /** The keys that earlier relevant findings have put into `seen`. */
  ghost function SeenKeys(h: Host, fs: seq<Finding>): set<Key>
    requires AllReadable(h, fs)
  {
    set f | f in fs && Relevant(h, f) && FindingKey(h, f).1 != "" :: FindingKey(h, f)
  }

  lemma AllReadableSnoc(h: Host, fs: seq<Finding>, f: Finding)
    requires AllReadable(h, fs) && Readable(h, f)
    ensures AllReadable(h, fs + [f])
  {
  }

  lemma {:induction false} SeenSnoc(h: Host, fs: seq<Finding>, f: Finding)
    requires AllReadable(h, fs) && Readable(h, f) && AllReadable(h, fs + [f])
    ensures SeenKeys(h, fs + [f]) ==
            SeenKeys(h, fs) + (if Relevant(h, f) && FindingKey(h, f).1 != "" then {FindingKey(h, f)} else {})
    ensures FindingKey(h, f).1 != "" ==> (Repeats(h, fs, f) <==> FindingKey(h, f) in SeenKeys(h, fs))
  {
    assert forall x :: x in fs + [f] <==> x in fs || x == f;
  }

  /** What one round of the loop has to find out: a key that was seen before needs no second look. */
  lemma {:induction false} ClearedStep(h: Host, today: int, index: map<Key, Indexed>, fs: seq<Finding>, f: Finding)
    requires AllReadable(h, fs) && Readable(h, f) && AllReadable(h, fs + [f])
    ensures !Relevant(h, f) ==>
      && SeenKeys(h, fs + [f]) == SeenKeys(h, fs)
      && (Cleared(h, today, index, fs + [f]) <==> Cleared(h, today, index, fs))
    ensures Relevant(h, f) && FindingKey(h, f).1 == "" ==>
      SeenKeys(h, fs + [f]) == SeenKeys(h, fs) && !Cleared(h, today, index, fs + [f])
    ensures Relevant(h, f) && FindingKey(h, f).1 != "" && FindingKey(h, f) in SeenKeys(h, fs) ==>
      && SeenKeys(h, fs + [f]) == SeenKeys(h, fs)
      && (Cleared(h, today, index, fs + [f]) <==> Cleared(h, today, index, fs))
    ensures Relevant(h, f) && FindingKey(h, f).1 != "" && FindingKey(h, f) !in SeenKeys(h, fs) ==>
      && SeenKeys(h, fs + [f]) == SeenKeys(h, fs) + {FindingKey(h, f)}
      && (Cleared(h, today, index, fs + [f]) <==>
            && Cleared(h, today, index, fs)
            && Current(index, FindingKey(h, f), today)
            && SeverityFits(index, FindingKey(h, f), Severity(h, f)))
  {
    ClearedSnoc(h, today, index, fs, f);
    SeenSnoc(h, fs, f);
    if Cleared(h, today, index, fs) && Repeats(h, fs, f) {
      var x :| x in fs && Relevant(h, x) && FindingKey(h, x) == FindingKey(h, f);
      assert Covered(h, today, index, x);
    }
  }

  lemma FirstMeansNew(h: Host, fs: seq<Finding>, f: Finding)
    requires AllReadable(h, fs) && Readable(h, f)
    ensures AllReadable(h, fs + [f])
    ensures FirstOfKey(h, fs + [f], |fs|) <==> !Repeats(h, fs, f)
  {
    assert forall j :: 0 <= j < |fs| ==> (fs + [f])[j] == fs[j];
  }

  // ---------------------------------------------------------------- the verdict

  ghost predicate Excuses(h: Host, today: int, e: Record, f: Finding)
    requires WellFormed(h, e)
  {
    KeyOf(h, e) == FindingKey(h, f) && today <= Compiled(h, e).expires
  }

  ghost predicate Excused(h: Host, today: int, excs: seq<Record>, f: Finding)
    requires AllWellFormed(h, excs)
  {
    exists e <- excs :: Excuses(h, today, e, f)
  }

  ghost predicate Agrees(h: Host, e: Record, f: Finding)
    requires WellFormed(h, e) && Readable(h, f)
  {
    KeyOf(h, e) == FindingKey(h, f) && Compiled(h, e).severity != "" ==> Compiled(h, e).severity == Severity(h, f)
  }

  /** The gate's promise, on the exceptions and findings themselves. */
  ghost predicate Passes(h: Host, today: int, excs: seq<Record>, fs: seq<Finding>)
    requires AllReadable(h, fs)
  {
    && Usable(h, excs)
    && (forall f <- fs :: Relevant(h, f) ==>
          FindingKey(h, f).1 != "" && Excused(h, today, excs, f))
    && (forall j :: 0 <= j < |fs| && Relevant(h, fs[j]) && FirstOfKey(h, fs, j) ==>
          forall e <- excs :: Agrees(h, e, fs[j]))
  }

  lemma {:induction false} SameKeySameException(h: Host, excs: seq<Record>, a: Record, b: Record)
    requires Usable(h, excs) && a in excs && b in excs
    requires KeyOf(h, a) == KeyOf(h, b)
    ensures a == b
  {
    var i :| 0 <= i < |excs| && excs[i] == a;
    var j :| 0 <= j < |excs| && excs[j] == b;
  }

  /** Looking a finding up in the index says the same as searching the exceptions. */
  lemma {:induction false} IndexFaithful(h: Host, today: int, excs: seq<Record>, index: map<Key, Indexed>, f: Finding)
    requires Usable(h, excs) && Indexes(h, excs, |excs|, index) && Readable(h, f)
    ensures Faithful(h, today, excs, index, f)
  {
    var k := FindingKey(h, f);
    if k in index {
      var at :| Sound(h, excs, |excs|, index, at);
      var x := excs[at[k]];
      assert HoldsFor(h)(x, k, index[k]);
      forall e | e in excs && KeyOf(h, e) == k
        ensures e == x
      {
        SameKeySameException(h, excs, e, x);
      }
      assert Current(index, k, today) <==> Excuses(h, today, x, f);
      assert SeverityFits(index, k, Severity(h, f)) <==> Agrees(h, x, f);
    }
  }

  /** The index says about this finding what the exceptions say. */
  ghost predicate Faithful(h: Host, today: int, excs: seq<Record>, index: map<Key, Indexed>, f: Finding)
    requires AllWellFormed(h, excs) && Readable(h, f)
  {
    && (Current(index, FindingKey(h, f), today) <==> Excused(h, today, excs, f))
    && (SeverityFits(index, FindingKey(h, f), Severity(h, f)) <==> forall e <- excs :: Agrees(h, e, f))
  }

  lemma {:induction false} ClearedIsPasses(h: Host, today: int, excs: seq<Record>, index: map<Key, Indexed>, fs: seq<Finding>)
    requires Usable(h, excs) && Indexes(h, excs, |excs|, index) && AllReadable(h, fs)
    ensures Cleared(h, today, index, fs) <==> Passes(h, today, excs, fs)
  {
    forall f | f in fs
      ensures Faithful(h, today, excs, index, f)
    {
      IndexFaithful(h, today, excs, index, f);
    }
    FaithfulVerdict(h, today, excs, index, fs);
  }

  lemma {:induction false} FaithfulVerdict(h: Host, today: int, excs: seq<Record>, index: map<Key, Indexed>, fs: seq<Finding>)
    requires Usable(h, excs) && AllReadable(h, fs) && forall f <- fs :: Faithful(h, today, excs, index, f)
    ensures Cleared(h, today, index, fs) <==> Passes(h, today, excs, fs)
  {
    assert forall j :: 0 <= j < |fs| ==> fs[j] in fs;
  }

  ghost predicate Runs(h: Host, report: Json, text: string) {
    && Parse(ReadLines(text)).Some?
    && Findings(h.show, report).Some?
    && AllReadable(h, Findings(h.show, report).value)
  }

  /** `main`, after the two files have been read: it exits with 0 exactly when the gate's promise holds. */
  method Gate(h: Host, today: int, report: Json, text: string) returns (o: Outcome)
    ensures o == Raised <==> !Runs(h, report, text)
    ensures Runs(h, report, text) ==>
      o == Exit(if Passes(h, today, Parse(ReadLines(text)).value, Findings(h.show, report).value) then 0 else 1)
  {
    var excs := ParseExceptions(ReadLines(text));
    if excs.None? {
      return Raised;
    }
    var index, errors := BuildIndex(h, excs.value);
    var fs := IterVulns(h.show, report);
    if fs.None? {
      return Raised;
    }
    var complaints := CheckFindings(h, today, index, fs.value);
    if complaints.None? {
      return Raised;
    }
    if errors == 0 {
      ClearedIsPasses(h, today, excs.value, index, fs.value);
    }
    return Exit(if errors + complaints.value > 0 then 1 else 0);
  }
}
